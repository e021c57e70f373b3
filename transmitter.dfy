/** The parts of a GNSS transmitter (satellite) that the signal-bias parametrization touches. */
module GnssTransmitter {
  import opened GnssSignalBias

  class Transmitter {
    /** The PRN, as in the {prn} variable of file templates. */
    const name: string
    /** useable(): the transmitter is enabled. */
    var usable: bool
    var signalBias: SignalBias

    /** A new transmitter: enabled, no signal biases. */
    constructor (name: string)
      ensures this.name == name && usable && signalBias == SignalBias([], [])
    {
      this.name := name;
      usable := true;
      signalBias := SignalBias([], []);
    }

    /** disable(): the transmitter is switched off; its signal biases stay. */
    method Disable()
      modifies this
      ensures !usable && signalBias == old(signalBias)
    {
      usable := false;
    }
  }
}
