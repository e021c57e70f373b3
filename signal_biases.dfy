/**
 * GnssParametrizationSignalBiases: reads the signal biases of the selected
 * transmitters and receivers from files at init, and at writeResults writes
 * them out, every PHASE bias wrapped into one wavelength on a copy.
 * File access and the transceiver selectors are replaced by inputs.
 */
module GnssParametrizationSignalBiases {
  import opened Wrappers
  import opened GnssSignalBias
  import opened GnssTransmitter
  import opened GnssReceiver

  // ---------------------------------------------------------------------
  // File name templates

  /** A piece of a file name template: literal text, or a variable such as {prn} or {station}. */
  datatype Part = Text(text: string) | Variable(name: string)

  datatype FileTemplate = FileTemplate(parts: seq<Part>)

  /** The variable list of the transmitter loops: {prn}. */
  const Prn: string := "prn"
  /** The variable list of the receiver loops: {station}. */
  const Station: string := "station"

  /** empty(): no file name is configured. */
  predicate IsEmpty(t: FileTemplate) {
    forall k :: 0 <= k < |t.parts| ==> t.parts[k] == Text("")
  }

  /**
   * One piece of the file name when the variable list holds only v, set to
   * value; a variable the list does not hold stays as its text {name}.
   */
  function ResolvePart(p: Part, v: string, value: string): string {
    match p
    case Text(s) => s
    case Variable(x) => if x == v then value else "{" + x + "}"
  }

  /** The file name with the variable v set to value. */
  function Resolve(t: FileTemplate, v: string, value: string): string
    decreases |t.parts|
  {
    if t.parts == [] then ""
    else
      var n := |t.parts| - 1;
      Resolve(FileTemplate(t.parts[..n]), v, value) + ResolvePart(t.parts[n], v, value)
  }

  /** An empty template resolves to the empty file name, whatever the variable. */
  lemma {:induction false} ResolveEmpty(t: FileTemplate, v: string, value: string)
    requires IsEmpty(t)
    ensures Resolve(t, v, value) == ""
    decreases |t.parts|
  {
    if t.parts != [] {
      var n := |t.parts| - 1;
      assert IsEmpty(FileTemplate(t.parts[..n])) by {
        forall k | 0 <= k < n
          ensures t.parts[..n][k] == Text("")
        {
          assert t.parts[..n][k] == t.parts[k];
        }
      }
      ResolveEmpty(FileTemplate(t.parts[..n]), v, value);
    }
  }

  /**
   * A template that does not mention the variable v resolves to the same
   * name whatever value v has: the value reaches only the variable it is set for.
   */
  lemma {:induction false} ResolveIgnoresOtherValue(t: FileTemplate, v: string, value: string, value': string)
    requires forall k :: 0 <= k < |t.parts| ==> t.parts[k] != Variable(v)
    ensures Resolve(t, v, value) == Resolve(t, v, value')
    decreases |t.parts|
  {
    if t.parts != [] {
      var n := |t.parts| - 1;
      var init := FileTemplate(t.parts[..n]);
      forall k | 0 <= k < n
        ensures init.parts[k] != Variable(v)
      {
        assert init.parts[k] == t.parts[k];
      }
      ResolveIgnoresOtherValue(init, v, value, value');
      assert ResolvePart(t.parts[n], v, value) == ResolvePart(t.parts[n], v, value');
    }
  }

  // ---------------------------------------------------------------------
  // init: read the biases of the selected, usable transceivers

  /** What reading the biases can change: the usability and the stored biases. */
  datatype BiasState = BiasState(usable: bool, bias: SignalBias)

  /**
   * One transceiver at init.  It is visited when the template `gate` is
   * configured and it is selected and usable; then the file resolved from the
   * template `used` is read: the biases read are stored, or, when the read
   * throws (None), the transceiver is disabled.
   */
  function AfterRead(gate: FileTemplate, used: FileTemplate, v: string, read: string -> Option<SignalBias>,
                     selected: bool, name: string, s: BiasState): BiasState
  {
    if IsEmpty(gate) || !selected || !s.usable then s
    else match read(Resolve(used, v, name))
      case Some(b) => s.(bias := b)
      case None => s.(usable := false)
  }

  /**
   * A transceiver stays usable exactly when it was usable and it was not
   * visited or its file was read; it is never enabled by the read.
   */
  lemma AfterReadUsable(gate: FileTemplate, used: FileTemplate, v: string, read: string -> Option<SignalBias>,
                        selected: bool, name: string, s: BiasState)
    ensures AfterRead(gate, used, v, read, selected, name, s).usable <==>
            s.usable && (IsEmpty(gate) || !selected || read(Resolve(used, v, name)).Some?)
  {
  }

  /**
   * A transceiver that is not visited keeps its state; a visited one keeps
   * its biases when the read fails and gets the biases of the file otherwise.
   */
  lemma AfterReadBias(gate: FileTemplate, used: FileTemplate, v: string, read: string -> Option<SignalBias>,
                      selected: bool, name: string, s: BiasState)
    ensures IsEmpty(gate) || !selected || !s.usable ==> AfterRead(gate, used, v, read, selected, name, s) == s
    ensures AfterRead(gate, used, v, read, selected, name, s).bias ==
            if !IsEmpty(gate) && selected && s.usable && read(Resolve(used, v, name)).Some?
            then read(Resolve(used, v, name)).value else s.bias
  {
  }

  function TransmitterState(t: Transmitter): BiasState
    reads t
  {
    BiasState(t.usable, t.signalBias)
  }

  function ReceiverState(r: Receiver): BiasState
    reads r
  {
    BiasState(r.usable, r.signalBias)
  }

  /** What reading the biases leaves alone: ownership, the epoch flags and the observation sampling. */
  function ReceiverRest(r: Receiver): (bool, seq<bool>, real)
    reads r
  {
    (r.isMyRank, r.epochUsable, r.observationSampling)
  }

  predicate DistinctTransmitters(ts: seq<Transmitter>) {
    forall k, k' :: 0 <= k < |ts| && 0 <= k' < |ts| && ts[k] == ts[k'] ==> k == k'
  }

  predicate DistinctReceivers(rs: seq<Receiver>) {
    forall k, k' :: 0 <= k < |rs| && 0 <= k' < |rs| && rs[k] == rs[k'] ==> k == k'
  }

  /** Transmitter i of the init loop; the other transmitters are not touched. */
  method ReadTransmitterAt(ts: seq<Transmitter>, i: nat, selected: bool, template: FileTemplate,
                           read: string -> Option<SignalBias>)
    requires i < |ts| && DistinctTransmitters(ts) && !IsEmpty(template)
    modifies ts[i]
    ensures TransmitterState(ts[i]) ==
            AfterRead(template, template, Prn, read, selected, ts[i].name, old(TransmitterState(ts[i])))
    ensures forall k :: 0 <= k < |ts| && k != i ==> TransmitterState(ts[k]) == old(TransmitterState(ts[k]))
  {
    var trans := ts[i];
    if selected && trans.usable {
      match read(Resolve(template, Prn, trans.name))
      case Some(b) =>
        trans.signalBias := b;
      case None =>
        trans.Disable();
    }
  }

  /** The transmitter part of init: read with `template` when it is configured. */
  method ReadTransmitterBiases(ts: seq<Transmitter>, selected: seq<bool>, template: FileTemplate,
                               read: string -> Option<SignalBias>)
    requires |selected| == |ts| && DistinctTransmitters(ts)
    modifies ts
    ensures forall k :: 0 <= k < |ts| ==>
              TransmitterState(ts[k]) ==
              AfterRead(template, template, Prn, read, selected[k], ts[k].name, old(TransmitterState(ts[k])))
  {
    if IsEmpty(template) {
      return;
    }
    for idTrans := 0 to |ts|
      invariant forall k :: 0 <= k < idTrans ==>
                  TransmitterState(ts[k]) ==
                  AfterRead(template, template, Prn, read, selected[k], ts[k].name, old(TransmitterState(ts[k])))
      invariant forall k :: idTrans <= k < |ts| ==> TransmitterState(ts[k]) == old(TransmitterState(ts[k]))
    {
      ReadTransmitterAt(ts, idTrans, selected[idTrans], template, read);
    }
  }

  /** Receiver i of the init loop, read from the template `used`; the other receivers are not touched. */
  method ReadReceiverAt(rs: seq<Receiver>, i: nat, selected: bool, gate: FileTemplate, used: FileTemplate,
                        read: string -> Option<SignalBias>)
    requires i < |rs| && DistinctReceivers(rs) && !IsEmpty(gate)
    modifies rs[i]
    ensures ReceiverState(rs[i]) == AfterRead(gate, used, Station, read, selected, rs[i].name, old(ReceiverState(rs[i])))
    ensures forall k :: 0 <= k < |rs| && k != i ==> ReceiverState(rs[k]) == old(ReceiverState(rs[k]))
    ensures forall k :: 0 <= k < |rs| ==> ReceiverRest(rs[k]) == old(ReceiverRest(rs[k]))
  {
    var recv := rs[i];
    if selected && recv.usable {
      match read(Resolve(used, Station, recv.name))
      case Some(b) =>
        recv.signalBias := b;
      case None =>
        recv.Disable();
    }
  }

  /** The receiver part of init: run when `gate` is configured, reading the files of `used`. */
  method ReadReceiverBiases(rs: seq<Receiver>, selected: seq<bool>, gate: FileTemplate, used: FileTemplate,
                            read: string -> Option<SignalBias>)
    requires |selected| == |rs| && DistinctReceivers(rs)
    modifies rs
    ensures forall k :: 0 <= k < |rs| ==>
              ReceiverState(rs[k]) == AfterRead(gate, used, Station, read, selected[k], rs[k].name, old(ReceiverState(rs[k])))
    ensures forall k :: 0 <= k < |rs| ==> ReceiverRest(rs[k]) == old(ReceiverRest(rs[k]))
  {
    if IsEmpty(gate) {
      return;
    }
    for idRecv := 0 to |rs|
      invariant forall k :: 0 <= k < idRecv ==>
                  ReceiverState(rs[k]) == AfterRead(gate, used, Station, read, selected[k], rs[k].name, old(ReceiverState(rs[k])))
      invariant forall k :: idRecv <= k < |rs| ==> ReceiverState(rs[k]) == old(ReceiverState(rs[k]))
      invariant forall k :: 0 <= k < |rs| ==> ReceiverRest(rs[k]) == old(ReceiverRest(rs[k]))
    {
      ReadReceiverAt(rs, idRecv, selected[idRecv], gate, used, read);
    }
  }

  // ---------------------------------------------------------------------
  // writeResults: the files written

  /** What writeResults needs from the normal equation info and the communicator. */
  datatype NormalEquationInfo = NormalEquationInfo(
    /** isEnabled(normalEquationInfo, name) */
    enabled: bool,
    isEachReceiverSeparately: bool,
    /** Parallel::isMaster(normalEquationInfo.comm) */
    isMaster: bool,
    estimateReceiver: seq<bool>)

  /** A transceiver's name and its stored biases. */
  datatype Entry = Entry(name: string, bias: SignalBias)

  /**
   * One file written: the resolved file name (to which appendBaseName adds
   * the suffix) and the signal biases written to it.
   */
  datatype WrittenFile = WrittenFile(fileName: string, suffix: string, bias: SignalBias)

  /** The files written, in order, and whether the writing ran to the end (false: an access threw). */
  datatype Written = Written(files: seq<WrittenFile>, complete: bool)

  /** The entries whose keep flag is set, in their order. */
  function Kept(es: seq<Entry>, keep: seq<bool>): (r: seq<Entry>)
    requires |keep| == |es|
    ensures |r| <= |es|
  {
    if es == [] then []
    else
      var n := |es| - 1;
      Kept(es[..n], keep[..n]) + (if keep[n] then [es[n]] else [])
  }

  /** The file written for one entry, once its biases have been wrapped. */
  function FileFor(t: FileTemplate, v: string, suffix: string, e: Entry, wrapped: SignalBias): WrittenFile {
    WrittenFile(Resolve(t, v, e.name), suffix, wrapped)
  }

  /** One file per entry, in order, each with its wrapped biases, until a wrap throws. */
  function WriteAll(t: FileTemplate, v: string, suffix: string, es: seq<Entry>): (w: Written)
    ensures |w.files| <= |es|
  {
    if es == [] then Written([], true)
    else
      var n := |es| - 1;
      var w := WriteAll(t, v, suffix, es[..n]);
      if !w.complete then w
      else match Wrapped(es[n].bias)
        case None => Written(w.files, false)
        case Some(b) => Written(w.files + [FileFor(t, v, suffix, es[n], b)], true)
  }

  /** The transmitter files: written only on the master and when receivers are not estimated separately. */
  function TransmitterWrites(outT: FileTemplate, info: NormalEquationInfo, suffix: string,
                             transmitters: seq<Entry>, keepT: seq<bool>): Written
    requires |keepT| == |transmitters|
  {
    if !IsEmpty(outT) && !info.isEachReceiverSeparately && info.isMaster
    then WriteAll(outT, Prn, suffix, Kept(transmitters, keepT)) else Written([], true)
  }

  /** The receiver files. */
  function ReceiverWrites(outR: FileTemplate, suffix: string, receivers: seq<Entry>, keepR: seq<bool>): Written
    requires |keepR| == |receivers|
  {
    if !IsEmpty(outR) then WriteAll(outR, Station, suffix, Kept(receivers, keepR)) else Written([], true)
  }

  /**
   * The files writeResults writes: nothing when the parameter is not
   * enabled; otherwise the transmitter files, then, unless writing those
   * threw, the receiver files.
   */
  function Outputs(outT: FileTemplate, outR: FileTemplate, info: NormalEquationInfo, suffix: string,
                   transmitters: seq<Entry>, keepT: seq<bool>, receivers: seq<Entry>, keepR: seq<bool>): Written
    requires |keepT| == |transmitters| && |keepR| == |receivers|
  {
    if !info.enabled then Written([], true)
    else
      var t := TransmitterWrites(outT, info, suffix, transmitters, keepT);
      if !t.complete then t
      else
        var r := ReceiverWrites(outR, suffix, receivers, keepR);
        Written(t.files + r.files, r.complete)
  }

  /** The name and stored biases of every transmitter, in list order. */
  function TransmitterEntries(ts: seq<Transmitter>): seq<Entry>
    reads ts
  {
    seq(|ts|, k reads ts requires 0 <= k < |ts| => Entry(ts[k].name, ts[k].signalBias))
  }

  /** A transmitter is written if it is usable and selected. */
  function TransmitterKeep(ts: seq<Transmitter>, selected: seq<bool>): seq<bool>
    requires |selected| == |ts|
    reads ts
  {
    seq(|ts|, k reads ts requires 0 <= k < |ts| => ts[k].usable && selected[k])
  }

  /** The name and stored biases of every receiver, in list order. */
  function ReceiverEntries(rs: seq<Receiver>): seq<Entry>
    reads rs
  {
    seq(|rs|, k reads rs requires 0 <= k < |rs| => Entry(rs[k].name, rs[k].signalBias))
  }

  /** A receiver is written if this process owns it, it is selected and it is estimated. */
  function ReceiverKeep(rs: seq<Receiver>, selected: seq<bool>, estimate: seq<bool>): seq<bool>
    requires |selected| == |rs| && |estimate| == |rs|
    reads rs
  {
    seq(|rs|, k reads rs requires 0 <= k < |rs| => rs[k].isMyRank && selected[k] && estimate[k])
  }

  /**
   * The loop over one list of transceivers: for every kept entry, wrap a
   * copy of its biases and write it, in order; a wrap that throws ends it.
   */
  method WriteSelected(t: FileTemplate, v: string, suffix: string, es: seq<Entry>, keep: seq<bool>) returns (w: Written)
    requires |keep| == |es|
    ensures w == WriteAll(t, v, suffix, Kept(es, keep))
  {
    w := Written([], true);
    for k := 0 to |es|
      invariant w == WriteAll(t, v, suffix, Kept(es[..k], keep[..k]))
      invariant w.complete
    {
      KeptStep(es, keep, k);
      if keep[k] {
        var copy := WrapPhaseBiases(es[k].bias);
        if copy.None? {
          WriteAllAppend(t, v, suffix, Kept(es[..k], keep[..k]), es[k]);
          w := Written(w.files, false);
          WriteAllStuck(t, v, suffix, es, keep, k + 1);
          return;
        }
        WriteAllAppend(t, v, suffix, Kept(es[..k], keep[..k]), es[k]);
        w := Written(w.files + [FileFor(t, v, suffix, es[k], copy.value)], true);
      } else {
        assert Kept(es[..k + 1], keep[..k + 1]) == Kept(es[..k], keep[..k]);
      }
    }
    assert es[..|es|] == es && keep[..|keep|] == keep;
  }

  /** WriteAll for one more entry. */
  lemma WriteAllAppend(t: FileTemplate, v: string, suffix: string, es: seq<Entry>, e: Entry)
    ensures WriteAll(t, v, suffix, es + [e]) ==
            if !WriteAll(t, v, suffix, es).complete then WriteAll(t, v, suffix, es)
            else match Wrapped(e.bias)
              case None => Written(WriteAll(t, v, suffix, es).files, false)
              case Some(b) => Written(WriteAll(t, v, suffix, es).files + [FileFor(t, v, suffix, e, b)], true)
  {
    assert (es + [e])[..|es|] == es;
  }

  lemma KeptStep(es: seq<Entry>, keep: seq<bool>, k: nat)
    requires |keep| == |es| && k < |es|
    ensures Kept(es[..k + 1], keep[..k + 1]) == Kept(es[..k], keep[..k]) + (if keep[k] then [es[k]] else [])
  {
    assert es[..k + 1][..k] == es[..k];
    assert keep[..k + 1][..k] == keep[..k];
  }

  /** Once a wrap has thrown, the later entries write nothing more. */
  lemma {:induction false} WriteAllStuck(t: FileTemplate, v: string, suffix: string, es: seq<Entry>, keep: seq<bool>, k: nat)
    requires |keep| == |es| && k <= |es|
    requires !WriteAll(t, v, suffix, Kept(es[..k], keep[..k])).complete
    ensures WriteAll(t, v, suffix, Kept(es, keep)) == WriteAll(t, v, suffix, Kept(es[..k], keep[..k]))
  {
    if k < |es| {
      var n := |es| - 1;
      assert es[..n][..k] == es[..k];
      assert keep[..n][..k] == keep[..k];
      WriteAllStuck(t, v, suffix, es[..n], keep[..n], k);
      if keep[n] {
        WriteAllAppend(t, v, suffix, Kept(es[..n], keep[..n]), es[n]);
      } else {
        assert Kept(es, keep) == Kept(es[..n], keep[..n]);
      }
    } else {
      assert es[..k] == es && keep[..k] == keep;
    }
  }

  /**
   * WriteAll writes, in order, the file of every entry before the first one
   * whose wrap throws, each with its wrapped biases; it is complete exactly
   * when no wrap throws.
   */
  lemma {:induction false} WriteAllFiles(t: FileTemplate, v: string, suffix: string, es: seq<Entry>)
    ensures forall j :: 0 <= j < |WriteAll(t, v, suffix, es).files| ==>
              Wrapped(es[j].bias).Some? &&
              WriteAll(t, v, suffix, es).files[j] == FileFor(t, v, suffix, es[j], Wrapped(es[j].bias).value)
    ensures WriteAll(t, v, suffix, es).complete ==> |WriteAll(t, v, suffix, es).files| == |es|
    ensures !WriteAll(t, v, suffix, es).complete ==>
              |WriteAll(t, v, suffix, es).files| < |es| && Wrapped(es[|WriteAll(t, v, suffix, es).files|].bias).None?
  {
    if es != [] {
      var n := |es| - 1;
      WriteAllFiles(t, v, suffix, es[..n]);
      var w := WriteAll(t, v, suffix, es[..n]);
      assert forall j :: 0 <= j < n ==> es[..n][j] == es[j];
      assert w.complete ==> |w.files| == n;
    }
  }

  /** The kept entries are those with the flag set, in their original order. */
  lemma {:induction false} KeptMembers(es: seq<Entry>, keep: seq<bool>)
    requires |keep| == |es|
    ensures forall k :: 0 <= k < |es| && keep[k] ==> es[k] in Kept(es, keep)
    ensures forall e :: e in Kept(es, keep) ==> exists k :: 0 <= k < |es| && keep[k] && es[k] == e
  {
    if es != [] {
      var n := |es| - 1;
      KeptMembers(es[..n], keep[..n]);
      assert forall k :: 0 <= k < n ==> es[..n][k] == es[k] && keep[..n][k] == keep[k];
    }
  }

  /** The transmitter files are written: their template is configured, on the master, not receiver by receiver. */
  predicate TransmitterOutput(outT: FileTemplate, info: NormalEquationInfo) {
    !IsEmpty(outT) && !info.isEachReceiverSeparately && info.isMaster
  }

  /**
   * Every file written belongs to a kept transmitter (and transmitter files
   * are written at all) or to a kept receiver (and the receiver template is
   * configured), and holds the wrapped copy of that transceiver's biases;
   * nothing is written when the parameter is not enabled.
   */
  lemma OutputsSound(outT: FileTemplate, outR: FileTemplate, info: NormalEquationInfo, suffix: string,
                     te: seq<Entry>, tk: seq<bool>, re: seq<Entry>, rk: seq<bool>, j: nat)
    requires |tk| == |te| && |rk| == |re|
    requires j < |Outputs(outT, outR, info, suffix, te, tk, re, rk).files|
    ensures info.enabled
    ensures var f := Outputs(outT, outR, info, suffix, te, tk, re, rk).files[j];
            (TransmitterOutput(outT, info) &&
             exists k :: 0 <= k < |te| && tk[k] && Wrapped(te[k].bias).Some? &&
                         f == FileFor(outT, Prn, suffix, te[k], Wrapped(te[k].bias).value)) ||
            (!IsEmpty(outR) &&
             exists k :: 0 <= k < |re| && rk[k] && Wrapped(re[k].bias).Some? &&
                         f == FileFor(outR, Station, suffix, re[k], Wrapped(re[k].bias).value))
  {
    var t := TransmitterWrites(outT, info, suffix, te, tk);
    var f := Outputs(outT, outR, info, suffix, te, tk, re, rk).files[j];
    if j < |t.files| {
      assert TransmitterOutput(outT, info);
      WriteAllFiles(outT, Prn, suffix, Kept(te, tk));
      KeptMembers(te, tk);
      assert f == t.files[j];
      assert Kept(te, tk)[j] in Kept(te, tk);
    } else {
      var r := ReceiverWrites(outR, suffix, re, rk);
      var j' := j - |t.files|;
      assert !IsEmpty(outR);
      WriteAllFiles(outR, Station, suffix, Kept(re, rk));
      KeptMembers(re, rk);
      assert f == r.files[j'];
      assert Kept(re, rk)[j'] in Kept(re, rk);
    }
  }

  /**
   * When writing ran to the end, every kept transmitter (if transmitter files
   * are written) and every kept receiver (if the receiver template is
   * configured) has its file among those written.
   */
  lemma OutputsComplete(outT: FileTemplate, outR: FileTemplate, info: NormalEquationInfo, suffix: string,
                        te: seq<Entry>, tk: seq<bool>, re: seq<Entry>, rk: seq<bool>)
    requires |tk| == |te| && |rk| == |re|
    requires info.enabled && Outputs(outT, outR, info, suffix, te, tk, re, rk).complete
    ensures forall k :: 0 <= k < |te| && tk[k] && TransmitterOutput(outT, info) ==>
              Wrapped(te[k].bias).Some? &&
              FileFor(outT, Prn, suffix, te[k], Wrapped(te[k].bias).value) in Outputs(outT, outR, info, suffix, te, tk, re, rk).files
    ensures forall k :: 0 <= k < |re| && rk[k] && !IsEmpty(outR) ==>
              Wrapped(re[k].bias).Some? &&
              FileFor(outR, Station, suffix, re[k], Wrapped(re[k].bias).value) in Outputs(outT, outR, info, suffix, te, tk, re, rk).files
  {
    var files := Outputs(outT, outR, info, suffix, te, tk, re, rk).files;
    var t := TransmitterWrites(outT, info, suffix, te, tk);
    var r := ReceiverWrites(outR, suffix, re, rk);
    assert files == t.files + r.files;
    forall k | 0 <= k < |te| && tk[k] && TransmitterOutput(outT, info)
      ensures Wrapped(te[k].bias).Some? && FileFor(outT, Prn, suffix, te[k], Wrapped(te[k].bias).value) in files
    {
      WriteAllFiles(outT, Prn, suffix, Kept(te, tk));
      KeptMembers(te, tk);
      var j :| 0 <= j < |Kept(te, tk)| && Kept(te, tk)[j] == te[k];
      assert files[j] == t.files[j];
    }
    forall k | 0 <= k < |re| && rk[k] && !IsEmpty(outR)
      ensures Wrapped(re[k].bias).Some? && FileFor(outR, Station, suffix, re[k], Wrapped(re[k].bias).value) in files
    {
      WriteAllFiles(outR, Station, suffix, Kept(re, rk));
      KeptMembers(re, rk);
      var j :| 0 <= j < |Kept(re, rk)| && Kept(re, rk)[j] == re[k];
      assert files[|t.files| + j] == r.files[j];
    }
  }

  /** bias_{station}, the receiver template of the findings below. */
  function ReceiverTemplateExample(): FileTemplate {
    FileTemplate([Text("bias_"), Variable(Station)])
  }

  /**
   * A template of a literal prefix and one variable resolves to the prefix
   * followed by the value when the variable is the one set, and by the
   * variable's own text otherwise.
   */
  lemma ResolvePrefixVariable(prefix: string, x: string, v: string, value: string)
    ensures Resolve(FileTemplate([Text(prefix), Variable(x)]), v, value) ==
            prefix + (if x == v then value else "{" + x + "}")
  {
    var t := FileTemplate([Text(prefix), Variable(x)]);
    var t1 := FileTemplate([Text(prefix)]);
    assert t.parts[..1] == t1.parts;
    assert t1.parts[..0] == [];
    assert Resolve(t1, v, value) == Resolve(FileTemplate([]), v, value) + prefix;
    assert Resolve(t1, v, value) == prefix;
  }

  /**
   * The receiver read of init as written resolves the transmitter template:
   * with only a receiver template configured, a receiver whose file exists
   * is disabled, where reading the receiver template loads its biases.
   */
  lemma ReceiverReadAsWrittenDisables()
    ensures var inT := FileTemplate([]);
            var inR := ReceiverTemplateExample();
            var b := SignalBias([GnssType(true, 1575420000.0)], [0.1]);
            var read := (f: string) => if f == "bias_GRAZ" then Some(b) else None;
            var s := BiasState(true, SignalBias([], []));
            !AfterRead(inR, inT, Station, read, true, "GRAZ", s).usable &&
            AfterRead(inR, inR, Station, read, true, "GRAZ", s) == BiasState(true, b)
  {
    assert ReceiverTemplateExample().parts[1] != Text("");
    ResolvePrefixVariable("bias_", Station, Station, "GRAZ");
    assert Resolve(FileTemplate([]), Station, "GRAZ") == "";
  }

  /**
   * The same with a transmitter template bias_{prn} configured as well: the
   * receiver loop's variable list holds only {station}, so the name read is
   * bias_{prn}, not the receiver's file, and the receiver is disabled.
   */
  lemma ReceiverReadAsWrittenUnresolved()
    ensures var inT := FileTemplate([Text("bias_"), Variable(Prn)]);
            var inR := ReceiverTemplateExample();
            var b := SignalBias([GnssType(true, 1575420000.0)], [0.1]);
            var read := (f: string) => if f == "bias_GRAZ" then Some(b) else None;
            var s := BiasState(true, SignalBias([], []));
            Resolve(inT, Station, "GRAZ") == "bias_{prn}" &&
            !AfterRead(inR, inT, Station, read, true, "GRAZ", s).usable &&
            AfterRead(inR, inR, Station, read, true, "GRAZ", s) == BiasState(true, b)
  {
    assert ReceiverTemplateExample().parts[1] != Text("");
    ResolvePrefixVariable("bias_", Station, Station, "GRAZ");
    ResolvePrefixVariable("bias_", Prn, Station, "GRAZ");
    var name := Resolve(FileTemplate([Text("bias_"), Variable(Prn)]), Station, "GRAZ");
    assert |Prn| != |Station|;
    assert name == "bias_{prn}";
    assert name[5] == '{';
  }

  // ---------------------------------------------------------------------
  // The parametrization

  /** The signal-bias parametrization with its configured file templates. */
  class SignalBiases {
    const fileNameOutTransmitter: FileTemplate
    const fileNameOutReceiver: FileTemplate
    const fileNameInTransmitter: FileTemplate
    const fileNameInReceiver: FileTemplate
    /** gnss->transmitters and gnss->receivers, set by init. */
    var transmitters: seq<Transmitter>
    var receivers: seq<Receiver>

    constructor (outTransmitter: FileTemplate, outReceiver: FileTemplate,
                 inTransmitter: FileTemplate, inReceiver: FileTemplate)
      ensures fileNameOutTransmitter == outTransmitter && fileNameOutReceiver == outReceiver
      ensures fileNameInTransmitter == inTransmitter && fileNameInReceiver == inReceiver
      ensures transmitters == [] && receivers == []
    {
      fileNameOutTransmitter := outTransmitter;
      fileNameOutReceiver := outReceiver;
      fileNameInTransmitter := inTransmitter;
      fileNameInReceiver := inReceiver;
      transmitters := [];
      receivers := [];
    }

    /**
     * init: remember the transceivers and read the biases of the selected,
     * usable ones, transmitters from the transmitter template and receivers
     * from the receiver template; a failed read disables that one.
     */
    method Init(ts: seq<Transmitter>, rs: seq<Receiver>, selectedTransmitters: seq<bool>, selectedReceivers: seq<bool>,
                read: string -> Option<SignalBias>)
      requires |selectedTransmitters| == |ts| && DistinctTransmitters(ts)
      requires |selectedReceivers| == |rs| && DistinctReceivers(rs)
      modifies this, ts, rs
      ensures transmitters == ts && receivers == rs
      ensures forall k :: 0 <= k < |ts| ==>
                TransmitterState(ts[k]) ==
                AfterRead(fileNameInTransmitter, fileNameInTransmitter, Prn, read, selectedTransmitters[k], ts[k].name,
                          old(TransmitterState(ts[k])))
      ensures forall k :: 0 <= k < |rs| ==>
                ReceiverState(rs[k]) ==
                AfterRead(fileNameInReceiver, fileNameInReceiver, Station, read, selectedReceivers[k], rs[k].name,
                          old(ReceiverState(rs[k])))
      ensures forall k :: 0 <= k < |rs| ==> ReceiverRest(rs[k]) == old(ReceiverRest(rs[k]))
    {
      transmitters, receivers := ts, rs;
      ReadTransmitterBiases(ts, selectedTransmitters, fileNameInTransmitter, read);
      ReadReceiverBiases(rs, selectedReceivers, fileNameInReceiver, fileNameInReceiver, read);
    }

    /** init as written: the receiver loop is gated by the receiver template but reads the transmitter template. */
    method InitAsWritten(ts: seq<Transmitter>, rs: seq<Receiver>, selectedTransmitters: seq<bool>,
                         selectedReceivers: seq<bool>, read: string -> Option<SignalBias>)
      requires |selectedTransmitters| == |ts| && DistinctTransmitters(ts)
      requires |selectedReceivers| == |rs| && DistinctReceivers(rs)
      modifies this, ts, rs
      ensures transmitters == ts && receivers == rs
      ensures forall k :: 0 <= k < |ts| ==>
                TransmitterState(ts[k]) ==
                AfterRead(fileNameInTransmitter, fileNameInTransmitter, Prn, read, selectedTransmitters[k], ts[k].name,
                          old(TransmitterState(ts[k])))
      ensures forall k :: 0 <= k < |rs| ==>
                ReceiverState(rs[k]) ==
                AfterRead(fileNameInReceiver, fileNameInTransmitter, Station, read, selectedReceivers[k], rs[k].name,
                          old(ReceiverState(rs[k])))
      ensures forall k :: 0 <= k < |rs| ==> ReceiverRest(rs[k]) == old(ReceiverRest(rs[k]))
    {
      transmitters, receivers := ts, rs;
      ReadTransmitterBiases(ts, selectedTransmitters, fileNameInTransmitter, read);
      ReadReceiverBiases(rs, selectedReceivers, fileNameInReceiver, fileNameInTransmitter, read);
    }

    /**
     * writeResults: the files written, in order, each holding a copy of the
     * stored biases with every PHASE bias wrapped.  Nothing is changed.
     */
    method WriteResults(info: NormalEquationInfo, suffix: string,
                        selectedTransmitters: seq<bool>, selectedReceivers: seq<bool>) returns (w: Written)
      requires |selectedTransmitters| == |transmitters|
      requires |selectedReceivers| == |receivers| && |info.estimateReceiver| == |receivers|
      ensures w == Outputs(fileNameOutTransmitter, fileNameOutReceiver, info, suffix,
                           TransmitterEntries(transmitters), TransmitterKeep(transmitters, selectedTransmitters),
                           ReceiverEntries(receivers), ReceiverKeep(receivers, selectedReceivers, info.estimateReceiver))
    {
      if !info.enabled {
        return Written([], true);
      }
      var te, tk := TransmitterEntries(transmitters), TransmitterKeep(transmitters, selectedTransmitters);
      var re, rk := ReceiverEntries(receivers), ReceiverKeep(receivers, selectedReceivers, info.estimateReceiver);
      var t := Written([], true);
      if !IsEmpty(fileNameOutTransmitter) && !info.isEachReceiverSeparately && info.isMaster {
        t := WriteSelected(fileNameOutTransmitter, Prn, suffix, te, tk);
      }
      assert t == TransmitterWrites(fileNameOutTransmitter, info, suffix, te, tk);
      if !t.complete {
        return t;
      }
      var r := Written([], true);
      if !IsEmpty(fileNameOutReceiver) {
        r := WriteSelected(fileNameOutReceiver, Station, suffix, re, rk);
      }
      assert r == ReceiverWrites(fileNameOutReceiver, suffix, re, rk);
      w := Written(t.files + r.files, r.complete);
    }
  }
}
