/**
 * The parts of a GNSS receiver that the station network touches: its name,
 * whether this process owns it, the whole-receiver usability flag, the
 * per-epoch usability flags and the observation sampling, together with the
 * epoch counting and the estimable-epochs ratio test the network applies.
 */
module GnssReceiver {
  import opened Wrappers
  import opened GnssSignalBias

  /** Number of true entries of s. */
  function CountTrue(s: seq<bool>): (n: nat)
    ensures n <= |s|
  {
    if s == [] then 0
    else CountTrue(s[..|s| - 1]) + (if s[|s| - 1] then 1 else 0)
  }

  /** All entries are counted exactly when all are true, none exactly when none is. */
  lemma {:induction false} CountTrueExtremes(s: seq<bool>)
    ensures CountTrue(s) == |s| <==> forall e :: 0 <= e < |s| ==> s[e]
    ensures CountTrue(s) == 0 <==> forall e :: 0 <= e < |s| ==> !s[e]
  {
    if s != [] {
      var n := |s| - 1;
      CountTrueExtremes(s[..n]);
      assert forall e :: 0 <= e < n ==> s[..n][e] == s[e];
    }
  }

  /** Disabling epochs never increases the number of usable epochs. */
  lemma {:induction false} CountTrueMonotone(a: seq<bool>, b: seq<bool>)
    requires |a| == |b|
    requires forall e :: 0 <= e < |b| ==> b[e] ==> a[e]
    ensures CountTrue(b) <= CountTrue(a)
  {
    if a != [] {
      CountTrueMonotone(a[..|a| - 1], b[..|b| - 1]);
    }
  }

  /** Every epoch of an epoch range of length n usable, as a receiver is created. */
  function AllTrue(n: nat): seq<bool>
  {
    seq(n, e => true)
  }

  /** The flags s after disabling every epoch e for which keep(e) is false. */
  function Masked(s: seq<bool>, keep: nat -> bool): seq<bool>
  {
    seq(|s|, e requires 0 <= e < |s| => s[e] && keep(e))
  }

  /**
   * The estimable-epochs ratio test: a receiver with `count` usable epochs out
   * of nEpochs, observed every `sampling` seconds, is kept unless
   * count*sampling < ratio*nEpochs*median.
   */
  predicate RatioAccepted(count: nat, sampling: real, ratio: real, nEpochs: nat, median: real) {
    !(count as real * sampling < ratio * nEpochs as real * median)
  }

  /** With a non-negative sampling, more usable epochs never turn a pass into a failure. */
  lemma RatioAcceptedMonotone(count: nat, count': nat, sampling: real, ratio: real, nEpochs: nat, median: real)
    requires sampling >= 0.0
    requires count <= count'
    requires RatioAccepted(count, sampling, ratio, nEpochs, median)
    ensures RatioAccepted(count', sampling, ratio, nEpochs, median)
  {
    assert count as real * sampling <= count' as real * sampling;
  }

  class Receiver {
    const name: string
    /** isMyRank(): this process handles the receiver. */
    var isMyRank: bool
    /** useable(): the whole receiver is enabled. */
    var usable: bool
    /** useable(idEpoch) for every epoch of the processing time series. */
    var epochUsable: seq<bool>
    var observationSampling: real
    /** The receiver's signal biases, empty until they are read or estimated. */
    var signalBias: SignalBias

    /**
     * A new receiver: owned by no process yet, enabled, every epoch usable,
     * no signal biases, and the observation sampling the receiver class
     * starts with (an input here).
     */
    constructor (name: string, nEpochs: nat, sampling: real)
      ensures this.name == name
      ensures !isMyRank && usable && epochUsable == AllTrue(nEpochs)
      ensures observationSampling == sampling && signalBias == SignalBias([], [])
    {
      this.name := name;
      isMyRank := false;
      usable := true;
      epochUsable := AllTrue(nEpochs);
      observationSampling := sampling;
      signalBias := SignalBias([], []);
    }

    /** disable(idEpoch): the epoch can no longer be used; nothing else changes. */
    method DisableEpoch(e: nat)
      requires e < |epochUsable|
      modifies this
      ensures epochUsable == old(epochUsable)[e := false]
      ensures isMyRank == old(isMyRank) && usable == old(usable)
      ensures observationSampling == old(observationSampling)
      ensures signalBias == old(signalBias)
    {
      epochUsable := epochUsable[e := false];
    }

    /**
     * readObservations: either it throws (read is None) and nothing is
     * changed, or it sets the observation sampling and disables the epochs
     * with no observation (observed(e) false).
     */
    method ReadObservations(read: Option<real>, observed: nat -> bool) returns (ok: bool)
      modifies this
      ensures ok == read.Some?
      ensures ok ==> epochUsable == Masked(old(epochUsable), observed) && observationSampling == read.value
      ensures !ok ==> epochUsable == old(epochUsable) && observationSampling == old(observationSampling)
      ensures isMyRank == old(isMyRank) && usable == old(usable)
      ensures signalBias == old(signalBias)
    {
      ok := read.Some?;
      if ok {
        epochUsable := Masked(epochUsable, observed);
        observationSampling := read.value;
      }
    }

    /**
     * The preprocessing stages (track creation, clock estimation, outlier
     * and cycle-slip handling): either one of them throws and nothing is
     * changed, or together they disable the epochs for which keep(e) is false.
     */
    method RunPreprocessingStages(throws: bool, keep: nat -> bool) returns (ok: bool)
      modifies this
      ensures ok == !throws
      ensures epochUsable == if ok then Masked(old(epochUsable), keep) else old(epochUsable)
      ensures isMyRank == old(isMyRank) && usable == old(usable)
      ensures observationSampling == old(observationSampling)
      ensures signalBias == old(signalBias)
    {
      ok := !throws;
      if ok {
        epochUsable := Masked(epochUsable, keep);
      }
    }

    /** disable(): the whole receiver is switched off; the epoch flags stay. */
    method Disable()
      modifies this
      ensures !usable
      ensures isMyRank == old(isMyRank) && epochUsable == old(epochUsable)
      ensures observationSampling == old(observationSampling) && signalBias == old(signalBias)
    {
      usable := false;
    }
  }

  /** The number of usable epochs of recv, counted epoch by epoch. */
  method CountUsableEpochs(recv: Receiver) returns (count: nat)
    ensures count == CountTrue(recv.epochUsable)
    ensures count <= |recv.epochUsable|
  {
    count := 0;
    var e := 0;
    while e < |recv.epochUsable|
      invariant 0 <= e <= |recv.epochUsable|
      invariant count == CountTrue(recv.epochUsable[..e])
    {
      assert recv.epochUsable[..e + 1][..e] == recv.epochUsable[..e];
      if recv.epochUsable[e] {
        count := count + 1;
      }
      e := e + 1;
    }
    assert recv.epochUsable[..e] == recv.epochUsable;
  }
}
