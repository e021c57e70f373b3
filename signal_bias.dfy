/**
 * GnssSignalBias: the bias of every signal type of one transmitter or
 * receiver, and the wrap of the phase biases into one wavelength that is
 * applied to a copy of the record before it is written.
 */
module GnssSignalBias {
  import opened Wrappers
  import opened IeeeRemainder

  /** Speed of light in m/s. */
  const LightVelocity: real := 299792458.0

  /** A carrier frequency in Hz; frequency() is positive for every signal type. */
  type Frequency = f: real | f > 0.0 witness 1.0

  /** The parts of a signal type the wrap depends on: whether it is a PHASE type, and its frequency. */
  datatype GnssType = GnssType(isPhase: bool, frequency: Frequency)

  /** types[k] has the bias biases[k]. */
  datatype SignalBias = SignalBias(types: seq<GnssType>, biases: seq<real>)

  /** LIGHT_VELOCITY/frequency(): the wavelength of a signal type, in metres. */
  function Wavelength(t: GnssType): (w: real)
    ensures w > 0.0
  {
    LightVelocity / t.frequency
  }

  /** Every PHASE type has a bias entry, so biases.at(idType) does not throw. */
  predicate PhaseInRange(sb: SignalBias) {
    forall k :: 0 <= k < |sb.types| && sb.types[k].isPhase ==> k < |sb.biases|
  }

  /** Entry k of the written copy: wrapped when it belongs to a PHASE type, as stored otherwise. */
  function WrappedAt(sb: SignalBias, k: nat): real
    requires k < |sb.biases|
  {
    if k < |sb.types| && sb.types[k].isPhase then Remainder(sb.biases[k], Wavelength(sb.types[k]))
    else sb.biases[k]
  }

  /**
   * The copy writeResults writes: every PHASE bias replaced by its remainder
   * against the wavelength; None when a PHASE type has no bias entry (the
   * out-of-range access throws).
   */
  function Wrapped(sb: SignalBias): Option<SignalBias> {
    if PhaseInRange(sb) then Some(SignalBias(sb.types, seq(|sb.biases|, k requires 0 <= k < |sb.biases| => WrappedAt(sb, k))))
    else None
  }

  /**
   * The loop of writeResults over the types of a copy of the record:
   * each PHASE bias is overwritten by its wrapped value, in type order.
   */
  method WrapPhaseBiases(signalBias: SignalBias) returns (r: Option<SignalBias>)
    ensures r == Wrapped(signalBias)
  {
    var biases := signalBias.biases;
    for idType := 0 to |signalBias.types|
      invariant |biases| == |signalBias.biases|
      invariant forall k :: 0 <= k < idType && signalBias.types[k].isPhase ==> k < |biases|
      invariant forall k :: 0 <= k < |biases| ==>
                  biases[k] == if k < idType then WrappedAt(signalBias, k) else signalBias.biases[k]
    {
      if signalBias.types[idType].isPhase {
        if idType >= |biases| {
          assert !PhaseInRange(signalBias) by {
            assert signalBias.types[idType].isPhase && idType >= |signalBias.biases|;
          }
          return None;
        }
        biases := biases[idType := Remainder(biases[idType], Wavelength(signalBias.types[idType]))];
      }
    }
    assert biases == Wrapped(signalBias).value.biases;
    r := Some(SignalBias(signalBias.types, biases));
  }

  /** The wrap fails exactly when some PHASE type has no bias entry. */
  lemma WrappedFailsIff(sb: SignalBias)
    ensures Wrapped(sb).None? <==>
            exists k :: 0 <= k < |sb.types| && sb.types[k].isPhase && k >= |sb.biases|
  {
  }

  /**
   * Every PHASE entry of the written copy is remainder(b, λ) of the stored
   * bias b, and lies in [-λ/2, λ/2].
   */
  lemma WrappedPhaseBounds(sb: SignalBias, k: nat)
    requires Wrapped(sb).Some? && k < |sb.types| && sb.types[k].isPhase
    ensures k < |Wrapped(sb).value.biases|
    ensures Wrapped(sb).value.biases[k] == Remainder(sb.biases[k], Wavelength(sb.types[k]))
    ensures -Wavelength(sb.types[k]) / 2.0 <= Wrapped(sb).value.biases[k] <= Wavelength(sb.types[k]) / 2.0
  {
  }

  /** The type list, the number of biases and every non-PHASE bias are as stored. */
  lemma WrappedKeepsOthers(sb: SignalBias)
    requires Wrapped(sb).Some?
    ensures Wrapped(sb).value.types == sb.types
    ensures |Wrapped(sb).value.biases| == |sb.biases|
    ensures forall k :: 0 <= k < |sb.biases| && !(k < |sb.types| && sb.types[k].isPhase) ==>
              Wrapped(sb).value.biases[k] == sb.biases[k]
  {
  }

  /** Wrapping a written copy once more changes nothing. */
  lemma {:induction false} WrappedIdempotent(sb: SignalBias)
    requires Wrapped(sb).Some?
    ensures Wrapped(Wrapped(sb).value) == Wrapped(sb)
  {
    var w := Wrapped(sb).value;
    assert PhaseInRange(w);
    forall k | 0 <= k < |w.biases|
      ensures WrappedAt(w, k) == w.biases[k]
    {
      if k < |w.types| && w.types[k].isPhase {
        RemainderIdempotent(sb.biases[k], Wavelength(sb.types[k]));
      }
    }
    assert Wrapped(w).value.biases == w.biases;
  }
}
