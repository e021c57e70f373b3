/**
 * The selection rules of the GNSS station network, stated over station and
 * alternative names: which alternatives become candidate receivers, which
 * stations survive, which alternative each station uses, how the per-process
 * results are combined, and which receivers are stored.  All file access is
 * replaced by the oracles of an Environment.
 */
module StationSelection {
  import opened Wrappers
  import opened GnssReceiver
  import opened GnssSignalBias

  /** What the file system and the receiver's own code answer, per alternative name. */
  datatype Environment = Environment(
    /** times.size(): the number of processing epochs */
    nEpochs: nat,
    /** medianSampling(times).seconds() */
    medianSampling: real,
    /** System::exists on the observation file resolved for the name */
    obsFileExists: string -> bool,
    /** reading the station info file or filling its definitions throws */
    stationInfoThrows: string -> bool,
    /** at epoch e an antenna is found that has both an antenna and an accuracy definition */
    antennaComplete: string -> nat -> bool,
    /** readObservations: None when it throws, otherwise the observation sampling */
    readObservations: string -> Option<real>,
    /** readObservations keeps epoch e usable (it has observations) */
    observed: string -> nat -> bool,
    /** one of the preprocessing stages throws for the receiver */
    preprocessingThrows: string -> bool,
    /** the preprocessing stages keep epoch e usable */
    preprocessingKeeps: string -> nat -> bool,
    /** the observation sampling a receiver holds as constructed, before any read sets it */
    createdSampling: real)

  /** The state of a receiver: name, owned by this process, enabled, per-epoch flags, observation sampling, signal biases. */
  datatype ReceiverView = ReceiverView(name: string, isMyRank: bool, usable: bool, epochs: seq<bool>, sampling: real, bias: SignalBias)

  /** The parts of the configuration the selection depends on. */
  datatype Config = Config(
    /** inputfileObservations is empty: the simulation case */
    simulation: bool,
    maxStationCount: nat,
    minEstimableEpochsRatio: real)

  // ---------------------------------------------------------------------
  // Candidate receivers of one station (one row of the station table)

  /** An alternative is loaded unless its observation file is missing or loading throws. */
  predicate IsCandidate(cfg: Config, env: Environment, name: string) {
    (cfg.simulation || env.obsFileExists(name)) && !env.stationInfoThrows(name)
  }

  /** The alternatives of a row that become candidate receivers, in row order. */
  function Candidates(cfg: Config, env: Environment, row: seq<string>): (c: seq<string>)
    ensures |c| <= |row|
  {
    if row == [] then []
    else
      var last := row[|row| - 1];
      Candidates(cfg, env, row[..|row| - 1]) + (if IsCandidate(cfg, env, last) then [last] else [])
  }

  /** The candidates are exactly the alternatives that are loaded. */
  lemma {:induction false} CandidatesMembers(cfg: Config, env: Environment, row: seq<string>)
    ensures forall n :: n in Candidates(cfg, env, row) <==> n in row && IsCandidate(cfg, env, n)
  {
    if row != [] {
      var n := |row| - 1;
      CandidatesMembers(cfg, env, row[..n]);
      assert row == row[..n] + [row[n]];
    }
  }

  /** A missing observation file or a throwing load removes only that alternative. */
  lemma {:induction false} CandidatesSkipOnly(cfg: Config, env: Environment, row: seq<string>, k: nat)
    requires k < |row|
    ensures Candidates(cfg, env, row[..k + 1]) ==
            Candidates(cfg, env, row[..k]) + (if IsCandidate(cfg, env, row[k]) then [row[k]] else [])
  {
    assert row[..k + 1][..k] == row[..k];
  }

  /** The table of candidate names, one row per station of the station list. */
  function CandidateTable(cfg: Config, env: Environment, table: seq<seq<string>>): seq<seq<string>>
  {
    seq(|table|, i requires 0 <= i < |table| => Candidates(cfg, env, table[i]))
  }

  // ---------------------------------------------------------------------
  // Removal of stations without candidates

  /** The rows that are not empty, in their original order (erase/remove_if). */
  function NonEmptyRows<T>(rows: seq<seq<T>>): (r: seq<seq<T>>)
    ensures |r| <= |rows|
    ensures forall j :: 0 <= j < |r| ==> r[j] != []
  {
    if rows == [] then []
    else
      var last := rows[|rows| - 1];
      NonEmptyRows(rows[..|rows| - 1]) + (if last != [] then [last] else [])
  }

  /** Only rows of the table are kept, and every row that is not empty is. */
  lemma {:induction false} NonEmptyRowsMembers<T>(rows: seq<seq<T>>)
    ensures forall j :: 0 <= j < |NonEmptyRows(rows)| ==> NonEmptyRows(rows)[j] in rows
    ensures forall i :: 0 <= i < |rows| && rows[i] != [] ==> rows[i] in NonEmptyRows(rows)
  {
    if rows != [] {
      var n := |rows| - 1;
      NonEmptyRowsMembers(rows[..n]);
      assert rows == rows[..n] + [rows[n]];
    }
  }

  lemma NonEmptyRowsStep<T>(rows: seq<seq<T>>, i: nat)
    requires i < |rows|
    ensures NonEmptyRows(rows[..i + 1]) == NonEmptyRows(rows[..i]) + (if rows[i] != [] then [rows[i]] else [])
  {
    assert rows[..i + 1][..i] == rows[..i];
  }

  /** The candidate names of the stations that have at least one candidate. */
  function Stations(cfg: Config, env: Environment, table: seq<seq<string>>): (s: seq<seq<string>>)
    ensures forall i :: 0 <= i < |s| ==> s[i] != []
  {
    NonEmptyRows(CandidateTable(cfg, env, table))
  }

  // ---------------------------------------------------------------------
  // Testing the alternatives of a station

  /**
   * The epoch flags of a receiver after it has been tried, starting from the
   * flags `start`: epochs without a complete antenna are disabled, and,
   * outside the simulation case, a successful read of the observations
   * disables the epochs without observations.
   */
  function TestedEpochs(cfg: Config, env: Environment, name: string, start: seq<bool>): (s: seq<bool>)
    ensures |s| == |start|
    ensures forall e :: 0 <= e < |s| ==> s[e] ==> start[e] && env.antennaComplete(name)(e)
  {
    var afterAntenna := Masked(start, env.antennaComplete(name));
    if cfg.simulation || env.readObservations(name).None? then afterAntenna
    else Masked(afterAntenna, env.observed(name))
  }

  /** The observation sampling of a receiver after it has been tried. */
  function TestedSampling(cfg: Config, env: Environment, name: string, start: real): real {
    if !cfg.simulation && env.readObservations(name).Some? then env.readObservations(name).value
    else start
  }

  /**
   * The alternative is accepted: in the simulation case always, otherwise
   * when reading its observations does not throw and the usable epochs pass
   * the estimable-epochs ratio test.
   */
  predicate Passes(cfg: Config, env: Environment, name: string, start: seq<bool>) {
    cfg.simulation ||
    (env.readObservations(name).Some? &&
     RatioAccepted(CountTrue(TestedEpochs(cfg, env, name, start)), env.readObservations(name).value,
                   cfg.minEstimableEpochsRatio, env.nEpochs, env.medianSampling))
  }

  /** Passes for a freshly created receiver, whose every epoch is usable. */
  predicate Usable(cfg: Config, env: Environment, name: string) {
    Passes(cfg, env, name, AllTrue(env.nEpochs))
  }

  /** The entry a station records: k+1 for the first alternative k that is usable, 0 if none is. */
  function FirstUsable(cfg: Config, env: Environment, names: seq<string>): (r: nat)
    ensures r <= |names|
  {
    if names == [] then 0
    else if Usable(cfg, env, names[0]) then 1
    else
      var rest := FirstUsable(cfg, env, names[1..]);
      if rest == 0 then 0 else rest + 1
  }

  /** The entry is 0 exactly when no alternative is usable. */
  lemma {:induction false} FirstUsableNone(cfg: Config, env: Environment, names: seq<string>)
    ensures FirstUsable(cfg, env, names) == 0 <==> forall k :: 0 <= k < |names| ==> !Usable(cfg, env, names[k])
  {
    if names != [] && !Usable(cfg, env, names[0]) {
      var tail := names[1..];
      FirstUsableNone(cfg, env, tail);
      assert forall k :: 1 <= k < |names| ==> names[k] == tail[k - 1];
    }
  }

  /** A nonzero entry names a usable alternative before which none is usable. */
  lemma {:induction false} FirstUsableFound(cfg: Config, env: Environment, names: seq<string>)
    ensures FirstUsable(cfg, env, names) > 0 ==>
              Usable(cfg, env, names[FirstUsable(cfg, env, names) - 1]) &&
              forall k :: 0 <= k < FirstUsable(cfg, env, names) - 1 ==> !Usable(cfg, env, names[k])
  {
    if names != [] && !Usable(cfg, env, names[0]) {
      var tail := names[1..];
      FirstUsableFound(cfg, env, tail);
      var r := FirstUsable(cfg, env, tail);
      if r > 0 {
        assert FirstUsable(cfg, env, names) == r + 1;
        assert names[r] == tail[r - 1];
        forall k | 0 <= k < r
          ensures !Usable(cfg, env, names[k])
        {
          if k > 0 {
            assert names[k] == tail[k - 1];
          }
        }
      }
    }
  }

  /** The first usable alternative is identified by the loop that stops at it. */
  lemma FirstUsableAt(cfg: Config, env: Environment, names: seq<string>, k: nat)
    requires k < |names|
    requires forall j :: 0 <= j < k ==> !Usable(cfg, env, names[j])
    requires Usable(cfg, env, names[k])
    ensures FirstUsable(cfg, env, names) == k + 1
  {
    FirstUsableNone(cfg, env, names);
    FirstUsableFound(cfg, env, names);
    var r := FirstUsable(cfg, env, names);
    assert r != 0 by {
      assert !Usable(cfg, env, names[k]) ==> false;
    }
    assert !(r - 1 < k);
    assert !(r - 1 > k);
  }

  /** In the simulation case every station with a candidate takes its first alternative. */
  lemma SimulationTakesFirst(cfg: Config, env: Environment, names: seq<string>)
    requires cfg.simulation
    requires names != []
    ensures FirstUsable(cfg, env, names) == 1
  {
  }

  /** The state of a receiver as created with every epoch usable. */
  function PristineView(name: string, env: Environment): ReceiverView {
    ReceiverView(name, false, true, AllTrue(env.nEpochs), env.createdSampling, SignalBias([], []))
  }

  /** The state of a created receiver after the owning process has tried it. */
  function TestedView(cfg: Config, env: Environment, name: string): ReceiverView {
    ReceiverView(name, true, true, TestedEpochs(cfg, env, name, AllTrue(env.nEpochs)), TestedSampling(cfg, env, name, env.createdSampling),
                 SignalBias([], []))
  }

  /**
   * The state in which init leaves the receiver chosen for station i on
   * process rank: tried when the process owns the station, as created otherwise.
   */
  function InitialView(cfg: Config, env: Environment, name: string, i: nat, rank: nat, size: nat): ReceiverView
    requires size > 0
  {
    if i % size == rank then TestedView(cfg, env, name) else PristineView(name, env)
  }

  /**
   * Selection never touches the signal biases: a receiver init stores, tried
   * or not, still holds the empty biases it was created with.
   */
  lemma InitialViewHasNoBiases(cfg: Config, env: Environment, name: string, i: nat, rank: nat, size: nat)
    requires size > 0
    ensures InitialView(cfg, env, name, i, rank, size).bias == SignalBias([], [])
    ensures InitialView(cfg, env, name, i, rank, size).name == name
  {
  }

  /** The states of a row of created receivers. */
  function PristineViews(names: seq<string>, env: Environment): seq<ReceiverView>
  {
    seq(|names|, k requires 0 <= k < |names| => PristineView(names[k], env))
  }

  /**
   * The states of a row after the owning process has tried its alternatives
   * up to the chosen entry (all of them when the entry is 0).
   */
  function TriedViews(cfg: Config, env: Environment, names: seq<string>, entry: nat): seq<ReceiverView>
  {
    seq(|names|, k requires 0 <= k < |names| =>
      if entry == 0 || k < entry then TestedView(cfg, env, names[k]) else PristineView(names[k], env))
  }

  // ---------------------------------------------------------------------
  // Distribution over processes and the reduction

  /** The vector one process fills: the entries of the stations it owns (i mod size == rank), 0 elsewhere. */
  function LocalAlternatives(cfg: Config, env: Environment, stations: seq<seq<string>>, rank: nat, size: nat): seq<nat>
    requires size > 0
  {
    seq(|stations|, i requires 0 <= i < |stations| =>
      if i % size == rank then FirstUsable(cfg, env, stations[i]) else 0)
  }

  /** The vectors of the first `ranks` processes. */
  function PerRank(cfg: Config, env: Environment, stations: seq<seq<string>>, ranks: nat, size: nat): seq<seq<nat>>
    requires size > 0
  {
    seq(ranks, r requires 0 <= r < ranks => LocalAlternatives(cfg, env, stations, r, size))
  }

  /** Entry i summed over the vectors vs. */
  function SumAt(vs: seq<seq<nat>>, i: nat): nat {
    if vs == [] then 0
    else SumAt(vs[..|vs| - 1], i) + (if i < |vs[|vs| - 1]| then vs[|vs| - 1][i] else 0)
  }

  /** reduceSum: the element-wise sum of the vectors of all processes. */
  function ReduceSum(vs: seq<seq<nat>>, n: nat): seq<nat>
  {
    seq(n, i requires 0 <= i < n => SumAt(vs, i))
  }

  lemma {:induction false} SumAtPerRank(cfg: Config, env: Environment, stations: seq<seq<string>>, ranks: nat, size: nat, i: nat)
    requires size > 0
    requires i < |stations|
    ensures SumAt(PerRank(cfg, env, stations, ranks, size), i) ==
            if i % size < ranks then FirstUsable(cfg, env, stations[i]) else 0
  {
    if ranks > 0 {
      var vs := PerRank(cfg, env, stations, ranks, size);
      assert vs[..ranks - 1] == PerRank(cfg, env, stations, ranks - 1, size);
      SumAtPerRank(cfg, env, stations, ranks - 1, size, i);
    }
  }

  /**
   * Exactly one process owns each station and the others leave its entry at
   * 0, so summing the vectors of all `size` processes gathers the owner's
   * entries: the result is the same for every number of processes.
   */
  lemma ReduceSumGathers(cfg: Config, env: Environment, stations: seq<seq<string>>, size: nat)
    requires size > 0
    ensures ReduceSum(PerRank(cfg, env, stations, size, size), |stations|) == Alternatives(cfg, env, stations)
  {
    forall i | 0 <= i < |stations|
      ensures SumAt(PerRank(cfg, env, stations, size, size), i) == FirstUsable(cfg, env, stations[i])
    {
      SumAtPerRank(cfg, env, stations, size, size, i);
    }
  }

  /** The entry of every station, as every process holds it after the broadcast. */
  function Alternatives(cfg: Config, env: Environment, stations: seq<seq<string>>): (alt: seq<nat>)
    ensures ValidChoice(stations, alt)
    ensures forall i :: 0 <= i < |stations| ==> alt[i] == FirstUsable(cfg, env, stations[i])
  {
    seq(|stations|, i requires 0 <= i < |stations| => FirstUsable(cfg, env, stations[i]))
  }

  /** The selection does not depend on how many processes share the stations. */
  lemma SelectionIndependentOfSharding(cfg: Config, env: Environment, stations: seq<seq<string>>, size1: nat, size2: nat)
    requires size1 > 0 && size2 > 0
    ensures ReduceSum(PerRank(cfg, env, stations, size1, size1), |stations|) ==
            ReduceSum(PerRank(cfg, env, stations, size2, size2), |stations|)
  {
    ReduceSumGathers(cfg, env, stations, size1);
    ReduceSumGathers(cfg, env, stations, size2);
  }

  // ---------------------------------------------------------------------
  // Stored receivers

  /** Every entry is 0 or names an alternative of its station. */
  predicate ValidChoice<T>(rows: seq<seq<T>>, alt: seq<nat>) {
    |alt| == |rows| && forall i :: 0 <= i < |rows| ==> alt[i] <= |rows[i]|
  }

  /** The chosen alternative (entry - 1) of every station with a nonzero entry, in station order. */
  function Chosen<T>(rows: seq<seq<T>>, alt: seq<nat>): (w: seq<T>)
    requires ValidChoice(rows, alt)
    ensures |w| <= |rows|
    ensures |w| == |ChosenStations(alt)|
  {
    if rows == [] then []
    else
      var n := |rows| - 1;
      Chosen(rows[..n], alt[..n]) + (if alt[n] > 0 then [rows[n][alt[n] - 1]] else [])
  }

  /** The indices of the stations with a nonzero entry, in station order. */
  function ChosenStations(alt: seq<nat>): (s: seq<nat>)
    ensures forall j :: 0 <= j < |s| ==> s[j] < |alt| && alt[s[j]] > 0
  {
    if alt == [] then []
    else
      var n := |alt| - 1;
      ChosenStations(alt[..n]) + (if alt[n] > 0 then [n] else [])
  }

  /** The stations with a nonzero entry are listed in increasing order, each of them present. */
  lemma {:induction false} ChosenStationsOrdered(alt: seq<nat>)
    ensures forall j, j' :: 0 <= j < j' < |ChosenStations(alt)| ==> ChosenStations(alt)[j] < ChosenStations(alt)[j']
    ensures forall i :: 0 <= i < |alt| && alt[i] > 0 ==> i in ChosenStations(alt)
  {
    if alt != [] {
      var n := |alt| - 1;
      ChosenStationsOrdered(alt[..n]);
      assert forall i :: 0 <= i < n ==> alt[..n][i] == alt[i];
    }
  }

  /** The j-th stored receiver is the chosen alternative of the j-th station with a nonzero entry. */
  lemma {:induction false} ChosenAt<T>(rows: seq<seq<T>>, alt: seq<nat>)
    requires ValidChoice(rows, alt)
    ensures |Chosen(rows, alt)| == |ChosenStations(alt)|
    ensures forall j :: 0 <= j < |Chosen(rows, alt)| ==>
              var i := ChosenStations(alt)[j]; Chosen(rows, alt)[j] == rows[i][alt[i] - 1]
  {
    if rows != [] {
      var n := |rows| - 1;
      var rows0, alt0 := rows[..n], alt[..n];
      ChosenAt(rows0, alt0);
      var w0, s0 := Chosen(rows0, alt0), ChosenStations(alt0);
      var w, s := Chosen(rows, alt), ChosenStations(alt);
      assert s == s0 + (if alt[n] > 0 then [n] else []);
      assert w == w0 + (if alt[n] > 0 then [rows[n][alt[n] - 1]] else []);
      forall j | 0 <= j < |w|
        ensures w[j] == rows[s[j]][alt[s[j]] - 1]
      {
        if j < |w0| {
          var i := s0[j];
          assert w[j] == w0[j] && s[j] == i;
          assert w0[j] == rows0[i][alt0[i] - 1];
          assert rows0[i] == rows[i] && alt0[i] == alt[i];
        } else {
          assert w[j] == rows[n][alt[n] - 1] && s[j] == n;
        }
      }
    }
  }

  /** The stations with a nonzero entry among the first i are the first of all of them. */
  lemma {:induction false} ChosenStationsPrefix(alt: seq<nat>, i: nat)
    requires i <= |alt|
    ensures ChosenStations(alt[..i]) <= ChosenStations(alt)
  {
    if i < |alt| {
      var n := |alt| - 1;
      assert alt[..n][..i] == alt[..i];
      ChosenStationsPrefix(alt[..n], i);
    } else {
      assert alt[..i] == alt;
    }
  }

  /** Station i adds one winner when its entry is nonzero: the next one of all winners. */
  lemma ChosenStationsNext(alt: seq<nat>, i: nat)
    requires i < |alt|
    ensures |ChosenStations(alt[..i + 1])| == |ChosenStations(alt[..i])| + (if alt[i] > 0 then 1 else 0)
    ensures |ChosenStations(alt[..i + 1])| <= |ChosenStations(alt)|
    ensures alt[i] > 0 ==> ChosenStations(alt)[|ChosenStations(alt[..i])|] == i
  {
    assert alt[..i + 1][..i] == alt[..i];
    ChosenStationsPrefix(alt, i + 1);
    if alt[i] > 0 {
      var c := |ChosenStations(alt[..i])|;
      assert ChosenStations(alt[..i + 1])[c] == i;
    }
  }

  /**
   * The number of receivers stored after `stored` were already present: the
   * size check comes after each push, so at least one winner is stored even
   * when maxStationCount allows none.
   */
  function StoredCount(winners: nat, stored: nat, maxStationCount: nat): (m: nat)
    ensures m <= winners
    ensures winners > 0 ==> m >= 1
    ensures m < winners ==> stored + m >= maxStationCount
  {
    var room := if maxStationCount - stored > 1 then maxStationCount - stored else 1;
    if winners < room then winners else room
  }

  /** The store loop that stops after its c-th push stores StoredCount receivers. */
  lemma StoredCountStop(c: nat, winners: nat, stored: nat, maxStationCount: nat)
    requires 1 <= c <= winners
    requires stored + c >= maxStationCount
    requires c == 1 || stored + c - 1 < maxStationCount
    ensures StoredCount(winners, stored, maxStationCount) == c
  {
  }

  /** The store loop that runs to the end stores every winner. */
  lemma StoredCountAll(winners: nat, stored: nat, maxStationCount: nat)
    requires winners == 0 || stored + winners < maxStationCount
    ensures StoredCount(winners, stored, maxStationCount) == winners
  {
  }

  /** With nothing stored before, at most max(maxStationCount, 1) receivers are kept. */
  lemma StoredCountBound(winners: nat, maxStationCount: nat)
    ensures StoredCount(winners, 0, maxStationCount) <= if maxStationCount > 1 then maxStationCount else 1
  {
  }

  /** The names of the chosen alternatives, one per station with a usable one, in station order. */
  function Winners(cfg: Config, env: Environment, table: seq<seq<string>>): seq<string> {
    var stations := Stations(cfg, env, table);
    Chosen(stations, Alternatives(cfg, env, stations))
  }

  /** The stations (positions in Stations) the winners come from. */
  function WinnerStations(cfg: Config, env: Environment, table: seq<seq<string>>): seq<nat> {
    ChosenStations(Alternatives(cfg, env, Stations(cfg, env, table)))
  }

  /**
   * The j-th winner is a usable alternative of its station and every
   * alternative listed before it is unusable.
   */
  lemma WinnerIsFirstUsable(cfg: Config, env: Environment, table: seq<seq<string>>, j: nat)
    requires j < |Winners(cfg, env, table)|
    ensures WinnerStations(cfg, env, table)[j] < |Stations(cfg, env, table)|
    ensures var st := Stations(cfg, env, table)[WinnerStations(cfg, env, table)[j]];
            exists k :: 0 <= k < |st| && Winners(cfg, env, table)[j] == st[k] &&
              Usable(cfg, env, st[k]) && forall k' :: 0 <= k' < k ==> !Usable(cfg, env, st[k'])
  {
    var stations := Stations(cfg, env, table);
    var alt := Alternatives(cfg, env, stations);
    ChosenAt(stations, alt);
    var i := ChosenStations(alt)[j];
    FirstUsableFound(cfg, env, stations[i]);
    var k := alt[i] - 1;
    assert Winners(cfg, env, table)[j] == stations[i][k];
  }

  /** Every station with a usable alternative contributes a winner. */
  lemma UsableStationWins(cfg: Config, env: Environment, table: seq<seq<string>>, i: nat, k: nat)
    requires i < |Stations(cfg, env, table)| && k < |Stations(cfg, env, table)[i]|
    requires Usable(cfg, env, Stations(cfg, env, table)[i][k])
    ensures i in WinnerStations(cfg, env, table)
  {
    var stations := Stations(cfg, env, table);
    FirstUsableNone(cfg, env, stations[i]);
    ChosenStationsOrdered(Alternatives(cfg, env, stations));
  }

  // ---------------------------------------------------------------------
  // The quality gate after preprocessing


  /** The epoch flags once the preprocessing stages have run without throwing. */
  function PreprocessedEpochs(env: Environment, v: ReceiverView): (s: seq<bool>)
    ensures |s| == |v.epochs|
    ensures forall e :: 0 <= e < |s| ==> s[e] ==> v.epochs[e]
  {
    Masked(v.epochs, env.preprocessingKeeps(v.name))
  }

  /** A stage throws, or the usable epochs left afterwards fail the ratio test. */
  predicate PreprocessingFails(cfg: Config, env: Environment, v: ReceiverView) {
    env.preprocessingThrows(v.name) ||
    !RatioAccepted(CountTrue(PreprocessedEpochs(env, v)), v.sampling,
                   cfg.minEstimableEpochsRatio, env.nEpochs, env.medianSampling)
  }

  /** The state preprocessing leaves: receivers of other processes are not touched. */
  function AfterPreprocessing(cfg: Config, env: Environment, v: ReceiverView): (v': ReceiverView)
    ensures v'.name == v.name && v'.isMyRank == v.isMyRank && v'.sampling == v.sampling && v'.bias == v.bias
    ensures !v.isMyRank ==> v' == v
    ensures v.isMyRank ==> (v'.usable <==> v.usable && !PreprocessingFails(cfg, env, v))
  {
    if !v.isMyRank then v
    else if env.preprocessingThrows(v.name) then v.(usable := false)
    else v.(epochs := PreprocessedEpochs(env, v), usable := v.usable && !PreprocessingFails(cfg, env, v))
  }

  /** Preprocessing only ever disables: no receiver and no epoch becomes usable again. */
  lemma AfterPreprocessingOnlyDisables(cfg: Config, env: Environment, v: ReceiverView)
    ensures AfterPreprocessing(cfg, env, v).usable ==> v.usable
    ensures |AfterPreprocessing(cfg, env, v).epochs| == |v.epochs|
    ensures forall e :: 0 <= e < |v.epochs| ==> AfterPreprocessing(cfg, env, v).epochs[e] ==> v.epochs[e]
  {
  }

  /** The states preprocessing leaves, receiver by receiver. */
  function AfterPreprocessingAll(cfg: Config, env: Environment, vs: seq<ReceiverView>): seq<ReceiverView>
  {
    seq(|vs|, j requires 0 <= j < |vs| => AfterPreprocessing(cfg, env, vs[j]))
  }

  /** For every receiver, whether preprocessing on this process disables (and counts) it. */
  function DisabledFlags(cfg: Config, env: Environment, vs: seq<ReceiverView>): seq<bool>
  {
    seq(|vs|, j requires 0 <= j < |vs| => vs[j].isMyRank && PreprocessingFails(cfg, env, vs[j]))
  }

  /**
   * Quality-gate monotonicity: with a non-negative sampling, a receiver
   * whose epochs before preprocessing already fail the ratio test is
   * disabled, whatever the preprocessing stages do.
   */
  lemma LowRatioAlwaysDisabled(cfg: Config, env: Environment, v: ReceiverView)
    requires v.isMyRank && v.sampling >= 0.0
    requires !RatioAccepted(CountTrue(v.epochs), v.sampling, cfg.minEstimableEpochsRatio, env.nEpochs, env.medianSampling)
    ensures !AfterPreprocessing(cfg, env, v).usable
  {
    if !env.preprocessingThrows(v.name) {
      var after := PreprocessedEpochs(env, v);
      CountTrueMonotone(v.epochs, after);
      if RatioAccepted(CountTrue(after), v.sampling, cfg.minEstimableEpochsRatio, env.nEpochs, env.medianSampling) {
        RatioAcceptedMonotone(CountTrue(after), CountTrue(v.epochs), v.sampling,
                              cfg.minEstimableEpochsRatio, env.nEpochs, env.medianSampling);
      }
    }
  }

  /**
   * In the simulation case no observations are read, so a tried receiver
   * keeps the sampling it was created with; preprocessing (which has no
   * simulation case of its own) applies the ratio test to that sampling.
   * With a created sampling of 0 and positive ratio, epochs and median, every
   * tried receiver is disabled.
   */
  lemma SimulationKeepsCreatedSampling(cfg: Config, env: Environment, name: string)
    requires cfg.simulation
    ensures TestedView(cfg, env, name).sampling == env.createdSampling
    ensures env.createdSampling == 0.0 && cfg.minEstimableEpochsRatio * env.nEpochs as real * env.medianSampling > 0.0 ==>
              !AfterPreprocessing(cfg, env, TestedView(cfg, env, name)).usable
  {
  }
}
