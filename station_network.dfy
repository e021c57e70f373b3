/**
 * GnssReceiverGeneratorStationNetwork: the ground station network that
 * creates one receiver per station from a table of alternative data sources
 * (init) and applies the estimable-epochs quality gate after preprocessing.
 * Receivers are objects that the network updates in place; the selection
 * rules these methods follow are the functions of StationSelection.
 */
module StationNetwork {
  import opened Wrappers
  import opened GnssReceiver
  import opened StationSelection

  /** The names of a row of receivers. */
  function NamesOf(rs: seq<Receiver>): seq<string>
  {
    seq(|rs|, k requires 0 <= k < |rs| => rs[k].name)
  }

  /** The names of a table of receivers. */
  function Names(rows: seq<seq<Receiver>>): seq<seq<string>>
  {
    seq(|rows|, i requires 0 <= i < |rows| => NamesOf(rows[i]))
  }

  /** No receiver object occurs twice in the row. */
  predicate DistinctRow(row: seq<Receiver>) {
    forall k, k' :: 0 <= k < |row| && 0 <= k' < |row| && row[k] == row[k'] ==> k == k'
  }

  /** No receiver object occurs twice in the table. */
  predicate Distinct(rows: seq<seq<Receiver>>) {
    forall i, k, i', k' ::
      (0 <= i < |rows| && 0 <= i' < |rows| && 0 <= k < |rows[i]| && 0 <= k' < |rows[i']| &&
       rows[i][k] == rows[i'][k']) ==> i == i' && k == k'
  }

  ghost function Objects(rows: seq<seq<Receiver>>): set<Receiver> {
    set i, k | 0 <= i < |rows| && 0 <= k < |rows[i]| :: rows[i][k]
  }

  /** The state of a receiver that the network reads and changes. */
  function View(r: Receiver): (v: ReceiverView)
    reads r
  {
    ReceiverView(r.name, r.isMyRank, r.usable, r.epochUsable, r.observationSampling, r.signalBias)
  }

  /** The state of a receiver as created: not owned, enabled, every epoch usable. */
  predicate Pristine(r: Receiver, env: Environment)
    reads r
  {
    View(r) == PristineView(r.name, env)
  }

  /** The state of a created receiver after this process has tried it as an alternative. */
  predicate Tested(cfg: Config, env: Environment, r: Receiver)
    reads r
  {
    View(r) == TestedView(cfg, env, r.name)
  }

  // ---------------------------------------------------------------------
  // init, step 1: a receiver for every loadable alternative

  /**
   * A new receiver for every alternative of one station whose observation
   * file exists (or no observation file is configured) and whose station
   * info loads, in the order of the alternatives.
   */
  method CreateStationCandidates(alternatives: seq<string>, cfg: Config, env: Environment)
    returns (row: seq<Receiver>)
    ensures NamesOf(row) == Candidates(cfg, env, alternatives)
    ensures DistinctRow(row)
    ensures forall k :: 0 <= k < |row| ==> fresh(row[k])
    ensures RowPristine(row, env)
  {
    row := [];
    for k := 0 to |alternatives|
      invariant NamesOf(row) == Candidates(cfg, env, alternatives[..k])
      invariant DistinctRow(row)
      invariant forall k' :: 0 <= k' < |row| ==> fresh(row[k'])
      invariant RowPristine(row, env)
    {
      CandidatesSkipOnly(cfg, env, alternatives, k);
      row := AddCandidate(row, alternatives[k], cfg, env);
    }
    assert alternatives[..|alternatives|] == alternatives;
  }

  /** One alternative: a new receiver is appended when it is a candidate. */
  method AddCandidate(row: seq<Receiver>, name: string, cfg: Config, env: Environment)
    returns (row': seq<Receiver>)
    requires DistinctRow(row) && RowPristine(row, env)
    ensures NamesOf(row') == NamesOf(row) + (if IsCandidate(cfg, env, name) then [name] else [])
    ensures row'[..|row|] == row
    ensures forall k :: |row| <= k < |row'| ==> fresh(row'[k])
    ensures DistinctRow(row') && RowPristine(row', env)
  {
    row' := row;
    if IsCandidate(cfg, env, name) {
      var recv := new Receiver(name, env.nEpochs, env.createdSampling);
      RowPristineAppend(row, recv, env);
      row' := row + [recv];
    }
  }

  /** Appending a receiver in its created state to a row of such receivers. */
  lemma RowPristineAppend(row: seq<Receiver>, recv: Receiver, env: Environment)
    requires RowPristine(row, env) && Pristine(recv, env)
    ensures RowPristine(row + [recv], env)
  {
    assert RowViews(row + [recv]) == RowViews(row) + [View(recv)];
    assert NamesOf(row + [recv]) == NamesOf(row) + [recv.name];
    assert PristineViews(NamesOf(row + [recv]), env) ==
           PristineViews(NamesOf(row), env) + [PristineView(recv.name, env)];
  }

  /** The candidate receivers of every station of the table, in table order. */
  method CreateCandidates(table: seq<seq<string>>, cfg: Config, env: Environment)
    returns (cands: seq<seq<Receiver>>)
    ensures Names(cands) == CandidateTable(cfg, env, table)
    ensures Distinct(cands)
    ensures forall i, k :: 0 <= i < |cands| && 0 <= k < |cands[i]| ==> fresh(cands[i][k])
    ensures forall i :: 0 <= i < |cands| ==> RowPristine(cands[i], env)
  {
    cands := [];
    for i := 0 to |table|
      invariant |cands| == i
      invariant forall i' :: 0 <= i' < i ==> NamesOf(cands[i']) == Candidates(cfg, env, table[i'])
      invariant Distinct(cands)
      invariant forall i', k :: 0 <= i' < |cands| && 0 <= k < |cands[i']| ==> fresh(cands[i'][k])
      invariant forall i' :: 0 <= i' < |cands| ==> RowPristine(cands[i'], env)
    {
      cands := AddStation(cands, table[i], cfg, env);
    }
  }

  /** One station of the table: its row of candidates is appended. */
  method AddStation(cands: seq<seq<Receiver>>, alternatives: seq<string>, cfg: Config, env: Environment)
    returns (cands': seq<seq<Receiver>>)
    requires Distinct(cands)
    ensures |cands'| == |cands| + 1 && cands'[..|cands|] == cands
    ensures NamesOf(cands'[|cands|]) == Candidates(cfg, env, alternatives)
    ensures Distinct(cands')
    ensures forall k :: 0 <= k < |cands'[|cands|]| ==> fresh(cands'[|cands|][k])
    ensures RowPristine(cands'[|cands|], env)
  {
    var row := CreateStationCandidates(alternatives, cfg, env);
    DistinctAppend(cands, row);
    cands' := cands + [row];
  }

  /** A row of new objects appended to a table of distinct objects keeps them distinct. */
  lemma DistinctAppend(rows: seq<seq<Receiver>>, row: seq<Receiver>)
    requires Distinct(rows) && DistinctRow(row)
    requires forall k, i', k' :: 0 <= k < |row| && 0 <= i' < |rows| && 0 <= k' < |rows[i']| ==>
               row[k] != rows[i'][k']
    ensures Distinct(rows + [row])
  {
    var t := rows + [row];
    forall i, k, i', k' |
      0 <= i < |t| && 0 <= i' < |t| && 0 <= k < |t[i]| && 0 <= k' < |t[i']| && t[i][k] == t[i'][k']
      ensures i == i' && k == k'
    {
      if i < |rows| && i' < |rows| {
        assert rows[i][k] == rows[i'][k'];
      } else if i == |rows| && i' == |rows| {
        assert row[k] == row[k'];
      }
    }
  }

  // ---------------------------------------------------------------------
  // init, step 2: remove the stations without candidates

  /**
   * The stations that have at least one candidate, in their original order;
   * idx gives the position each kept station had.
   */
  method RemoveEmptyStations(cands: seq<seq<Receiver>>) returns (kept: seq<seq<Receiver>>, ghost idx: seq<nat>)
    ensures kept == NonEmptyRows(cands)
    ensures |idx| == |kept|
    ensures forall j :: 0 <= j < |idx| ==> idx[j] < |cands| && kept[j] == cands[idx[j]]
    ensures forall j, j' :: 0 <= j < j' < |idx| ==> idx[j] < idx[j']
  {
    kept, idx := [], [];
    for i := 0 to |cands|
      invariant kept == NonEmptyRows(cands[..i])
      invariant |idx| == |kept|
      invariant forall j :: 0 <= j < |idx| ==> idx[j] < i && kept[j] == cands[idx[j]]
      invariant forall j, j' :: 0 <= j < j' < |idx| ==> idx[j] < idx[j']
    {
      NonEmptyRowsStep(cands, i);
      if cands[i] != [] {
        kept, idx := kept + [cands[i]], idx + [i];
      }
    }
    assert cands[..|cands|] == cands;
  }

  /** Keeping rows at increasing positions keeps the objects distinct. */
  lemma DistinctKept(cands: seq<seq<Receiver>>, kept: seq<seq<Receiver>>, idx: seq<nat>)
    requires Distinct(cands)
    requires |idx| == |kept|
    requires forall j :: 0 <= j < |idx| ==> idx[j] < |cands| && kept[j] == cands[idx[j]]
    requires forall j, j' :: 0 <= j < j' < |idx| ==> idx[j] < idx[j']
    ensures Distinct(kept)
  {
    forall j, k, j', k' |
      0 <= j < |kept| && 0 <= j' < |kept| && 0 <= k < |kept[j]| && 0 <= k' < |kept[j']| &&
      kept[j][k] == kept[j'][k']
      ensures j == j' && k == k'
    {
      assert cands[idx[j]][k] == cands[idx[j']][k'];
    }
  }

  /** Removing empty rows and taking names commute. */
  lemma {:induction false} NamesNonEmptyRows(rows: seq<seq<Receiver>>)
    ensures Names(NonEmptyRows(rows)) == NonEmptyRows(Names(rows))
  {
    if rows != [] {
      var n := |rows| - 1;
      NamesNonEmptyRows(rows[..n]);
      assert Names(rows)[..n] == Names(rows[..n]);
      assert (rows[n] != []) == (NamesOf(rows[n]) != []);
    }
  }

  // ---------------------------------------------------------------------
  // init, step 3: on this process, try the alternatives of the owned stations

  /** Disable every epoch at which no antenna with an antenna and an accuracy definition is found. */
  method DisableEpochsWithoutAntenna(recv: Receiver, complete: nat -> bool)
    modifies recv
    ensures recv.epochUsable == Masked(old(recv.epochUsable), complete)
    ensures recv.isMyRank == old(recv.isMyRank) && recv.usable == old(recv.usable)
    ensures recv.observationSampling == old(recv.observationSampling)
    ensures recv.signalBias == old(recv.signalBias)
  {
    for e := 0 to |recv.epochUsable|
      invariant |recv.epochUsable| == |old(recv.epochUsable)|
      invariant forall e' :: 0 <= e' < e ==> (recv.epochUsable[e'] <==> old(recv.epochUsable)[e'] && complete(e'))
      invariant forall e' :: e <= e' < |recv.epochUsable| ==> recv.epochUsable[e'] == old(recv.epochUsable)[e']
      invariant recv.isMyRank == old(recv.isMyRank) && recv.usable == old(recv.usable)
      invariant recv.observationSampling == old(recv.observationSampling)
      invariant recv.signalBias == old(recv.signalBias)
    {
      if !complete(e) {
        recv.DisableEpoch(e);
      }
    }
  }

  /**
   * Try one alternative: take ownership, disable the epochs without a
   * complete antenna, and then either accept it (simulation case) or read
   * its observations and apply the estimable-epochs ratio test; a throwing
   * read rejects it.
   */
  method TestAlternative(recv: Receiver, cfg: Config, env: Environment) returns (passed: bool)
    requires |recv.epochUsable| == env.nEpochs
    modifies recv
    ensures passed == Passes(cfg, env, recv.name, old(recv.epochUsable))
    ensures recv.isMyRank && recv.usable == old(recv.usable)
    ensures recv.epochUsable == TestedEpochs(cfg, env, recv.name, old(recv.epochUsable))
    ensures recv.observationSampling == TestedSampling(cfg, env, recv.name, old(recv.observationSampling))
    ensures recv.signalBias == old(recv.signalBias)
  {
    recv.isMyRank := true;
    DisableEpochsWithoutAntenna(recv, env.antennaComplete(recv.name));
    if cfg.simulation {
      return true;
    }
    var ok := recv.ReadObservations(env.readObservations(recv.name), env.observed(recv.name));
    if !ok {
      return false;
    }
    var countEpochs := CountUsableEpochs(recv);
    passed := RatioAccepted(countEpochs, recv.observationSampling, cfg.minEstimableEpochsRatio,
                            env.nEpochs, env.medianSampling);
  }

  /** Trying a receiver in its created state. */
  method TestCreated(recv: Receiver, cfg: Config, env: Environment) returns (passed: bool)
    requires Pristine(recv, env)
    modifies recv
    ensures passed == Usable(cfg, env, recv.name)
    ensures Tested(cfg, env, recv)
  {
    passed := TestAlternative(recv, cfg, env);
  }

  /** The states of a row of receivers. */
  function RowViews(row: seq<Receiver>): seq<ReceiverView>
    reads row
  {
    seq(|row|, k reads row requires 0 <= k < |row| => View(row[k]))
  }

  /** Trying alternative k of a row leaves the other receivers of the row as they are. */
  method TestInRow(row: seq<Receiver>, k: nat, cfg: Config, env: Environment) returns (passed: bool)
    requires k < |row|
    requires DistinctRow(row)
    requires Pristine(row[k], env)
    modifies row[k]
    ensures passed == Usable(cfg, env, row[k].name)
    ensures Tested(cfg, env, row[k])
    ensures forall j :: 0 <= j < |row| && j != k ==> View(row[j]) == old(View(row[j]))
  {
    passed := TestCreated(row[k], cfg, env);
  }

  /** Every receiver of the row is in its created state. */
  predicate RowPristine(row: seq<Receiver>, env: Environment)
    reads row
  {
    RowViews(row) == PristineViews(NamesOf(row), env)
  }

  /** The alternatives up to the entry (all of them when it is 0) have been tried, the others not. */
  predicate RowTried(cfg: Config, env: Environment, row: seq<Receiver>, entry: nat)
    reads row
  {
    RowViews(row) == TriedViews(cfg, env, NamesOf(row), entry)
  }

  /**
   * Try the alternatives of one station in order until one passes; the entry
   * is k+1 for the alternative k that passed, 0 when none did.  The
   * alternatives after the one that passed are not touched.
   */
  method TestStation(row: seq<Receiver>, cfg: Config, env: Environment) returns (entry: nat)
    requires DistinctRow(row)
    requires RowPristine(row, env)
    modifies row
    ensures entry == FirstUsable(cfg, env, NamesOf(row))
    ensures RowTried(cfg, env, row, entry)
  {
    forall j | 0 <= j < |row|
      ensures Pristine(row[j], env)
    {
      assert RowViews(row)[j] == View(row[j]);
      assert PristineViews(NamesOf(row), env)[j] == PristineView(row[j].name, env);
    }
    entry := TestAlternatives(row, cfg, env);
    RowTriedPointwise(cfg, env, row, entry);
  }

  /** The loop of TestStation, receiver by receiver. */
  method TestAlternatives(row: seq<Receiver>, cfg: Config, env: Environment) returns (entry: nat)
    requires DistinctRow(row)
    requires forall j :: 0 <= j < |row| ==> Pristine(row[j], env)
    modifies row
    ensures entry == FirstUsable(cfg, env, NamesOf(row))
    ensures forall j :: 0 <= j < |row| ==>
              if entry == 0 || j < entry then Tested(cfg, env, row[j]) else Pristine(row[j], env)
  {
    ghost var names := NamesOf(row);
    entry := 0;
    var k := 0;
    while k < |row| && entry == 0
      invariant 0 <= k <= |row|
      invariant entry == 0 ==> forall j :: 0 <= j < k ==> !Usable(cfg, env, names[j])
      invariant entry != 0 ==> entry == k && entry == FirstUsable(cfg, env, names)
      invariant forall j :: 0 <= j < k ==> Tested(cfg, env, row[j])
      invariant forall j :: k <= j < |row| ==> Pristine(row[j], env)
    {
      var passed := TestInRow(row, k, cfg, env);
      if passed {
        FirstUsableAt(cfg, env, names, k);
        entry := k + 1;
      }
      k := k + 1;
    }
    if entry == 0 {
      FirstUsableNone(cfg, env, names);
    }
  }

  /** RowTried, receiver by receiver. */
  lemma RowTriedPointwise(cfg: Config, env: Environment, row: seq<Receiver>, entry: nat)
    requires forall j :: 0 <= j < |row| ==>
               if entry == 0 || j < entry then Tested(cfg, env, row[j]) else Pristine(row[j], env)
    ensures RowTried(cfg, env, row, entry)
  {
    assert RowViews(row) == TriedViews(cfg, env, NamesOf(row), entry);
  }

  /**
   * One iteration of the loop over the stations: an owned station has its
   * alternatives tried, any other station is left as it is.  The receivers
   * of the other stations are not touched.
   */
  method VisitStation(cands: seq<seq<Receiver>>, i: nat, owned: bool, cfg: Config, env: Environment)
    returns (entry: nat)
    requires i < |cands|
    requires Distinct(cands)
    requires RowPristine(cands[i], env)
    modifies cands[i]
    ensures entry == if owned then FirstUsable(cfg, env, NamesOf(cands[i])) else 0
    ensures if owned then RowTried(cfg, env, cands[i], entry) else RowPristine(cands[i], env)
    ensures forall i' :: 0 <= i' < |cands| && i' != i ==> RowViews(cands[i']) == old(RowViews(cands[i']))
  {
    entry := 0;
    if owned {
      entry := TestStation(cands[i], cfg, env);
      forall i', k | 0 <= i' < |cands| && i' != i && 0 <= k < |cands[i']|
        ensures unchanged(cands[i'][k])
      {
        assert cands[i'][k] !in cands[i];
      }
    }
  }

  /**
   * The loop over the stations owned by this process (i mod size == rank):
   * the vector it fills holds each owned station's entry and 0 elsewhere.
   * Only the alternatives of owned stations are tried.
   */
  method SelectAlternatives(cands: seq<seq<Receiver>>, cfg: Config, env: Environment, rank: nat, size: nat)
    returns (receiverAlternative: seq<nat>)
    requires size > 0
    requires Distinct(cands)
    requires forall i :: 0 <= i < |cands| ==> RowPristine(cands[i], env)
    modifies Objects(cands)
    ensures receiverAlternative == LocalAlternatives(cfg, env, Names(cands), rank, size)
    ensures forall i :: 0 <= i < |cands| ==>
              if i % size == rank then RowTried(cfg, env, cands[i], receiverAlternative[i])
              else RowPristine(cands[i], env)
  {
    ghost var local := LocalAlternatives(cfg, env, Names(cands), rank, size);
    receiverAlternative := [];
    for i := 0 to |cands|
      invariant |receiverAlternative| == i
      invariant forall i' :: 0 <= i' < i ==> receiverAlternative[i'] == local[i']
      invariant forall i' :: 0 <= i' < i && i' % size == rank ==>
                  RowTried(cfg, env, cands[i'], receiverAlternative[i'])
      invariant forall i' :: 0 <= i' < i && i' % size != rank ==> RowPristine(cands[i'], env)
      invariant forall i' :: i <= i' < |cands| ==> RowPristine(cands[i'], env)
    {
      var entry := VisitStation(cands, i, i % size == rank, cfg, env);
      receiverAlternative := receiverAlternative + [entry];
    }
  }

  /** Steps 1 and 2: the candidate receivers of the stations that have one. */
  method CreateStations(table: seq<seq<string>>, cfg: Config, env: Environment) returns (kept: seq<seq<Receiver>>)
    ensures Names(kept) == Stations(cfg, env, table)
    ensures Distinct(kept)
    ensures forall i, k :: 0 <= i < |kept| && 0 <= k < |kept[i]| ==> fresh(kept[i][k])
    ensures forall i :: 0 <= i < |kept| ==> RowPristine(kept[i], env)
  {
    var cands := CreateCandidates(table, cfg, env);
    ghost var idx;
    kept, idx := RemoveEmptyStations(cands);
    DistinctKept(cands, kept, idx);
    NamesNonEmptyRows(cands);
  }

  /**
   * Step 3 and the reduction: this process tries its stations, the vectors
   * of all processes are summed, and every process holds the entry of every
   * station.  reduceSum and broadCast are modelled by summing this process's
   * vector with the vectors the other processes compute by the same rules.
   */
  method ChooseAlternatives(kept: seq<seq<Receiver>>, cfg: Config, env: Environment, rank: nat, size: nat)
    returns (alt: seq<nat>)
    requires size > 0
    requires Distinct(kept)
    requires forall i :: 0 <= i < |kept| ==> RowPristine(kept[i], env)
    modifies Objects(kept)
    ensures alt == Alternatives(cfg, env, Names(kept))
    ensures ValidChoice(kept, alt)
    ensures forall j :: 0 <= j < |Chosen(kept, alt)| ==>
              View(Chosen(kept, alt)[j]) == InitialView(cfg, env, Chosen(kept, alt)[j].name, ChosenStations(alt)[j], rank, size)
  {
    var local := SelectAlternatives(kept, cfg, env, rank, size);
    var perRank := seq(size, r requires 0 <= r < size =>
                         if r == rank then local else LocalAlternatives(cfg, env, Names(kept), r, size));
    assert perRank == PerRank(cfg, env, Names(kept), size, size);
    alt := ReduceSum(perRank, |kept|);
    ReduceSumGathers(cfg, env, Names(kept), size);
    WinnerViews(cfg, env, kept, rank, size, alt);
  }

  /**
   * Steps 1 to 3 and the reduction: a table of new receivers and the entry
   * of every station; its chosen receivers carry the winners' names, and on
   * this process those of owned stations have been tried.
   */
  method SelectWinners(table: seq<seq<string>>, cfg: Config, env: Environment, rank: nat, size: nat)
    returns (kept: seq<seq<Receiver>>, alt: seq<nat>, winners: seq<Receiver>)
    requires size > 0
    ensures ValidChoice(kept, alt) && Distinct(kept)
    ensures winners == Chosen(kept, alt)
    ensures NamesOf(winners) == Winners(cfg, env, table)
    ensures ChosenStations(alt) == WinnerStations(cfg, env, table)
    ensures forall j :: 0 <= j < |winners| ==>
              fresh(winners[j]) &&
              View(winners[j]) == InitialView(cfg, env, winners[j].name, ChosenStations(alt)[j], rank, size)
  {
    kept := CreateStations(table, cfg, env);
    alt := ChooseAlternatives(kept, cfg, env, rank, size);
    winners := Chosen(kept, alt);
    NamesChosen(kept, alt);
    forall j | 0 <= j < |winners|
      ensures fresh(winners[j])
    {
      ChosenAtIndex(kept, alt, j);
    }
  }

  // ---------------------------------------------------------------------
  // init, step 4: store the winners

  /** The names of the chosen receivers are the chosen names. */
  lemma NamesChosen(rows: seq<seq<Receiver>>, alt: seq<nat>)
    requires ValidChoice(rows, alt)
    ensures ValidChoice(Names(rows), alt)
    ensures NamesOf(Chosen(rows, alt)) == Chosen(Names(rows), alt)
  {
    ChosenAt(rows, alt);
    ChosenAt(Names(rows), alt);
  }

  /** Receivers chosen from different stations of a table of distinct receivers are distinct. */
  lemma DistinctChosen(rows: seq<seq<Receiver>>, alt: seq<nat>)
    requires ValidChoice(rows, alt) && Distinct(rows)
    ensures DistinctRow(Chosen(rows, alt))
  {
    ChosenAt(rows, alt);
    ChosenStationsOrdered(alt);
    var w, s := Chosen(rows, alt), ChosenStations(alt);
    forall j, j' | 0 <= j < |w| && 0 <= j' < |w| && w[j] == w[j']
      ensures j == j'
    {
      assert rows[s[j]][alt[s[j]] - 1] == rows[s[j']][alt[s[j']] - 1];
    }
  }

  /**
   * On this process, the receiver chosen for an owned station has been
   * tried and every other chosen receiver is still in its created state.
   */
  lemma WinnerViews(cfg: Config, env: Environment, kept: seq<seq<Receiver>>, rank: nat, size: nat, alt: seq<nat>)
    requires size > 0
    requires alt == Alternatives(cfg, env, Names(kept))
    requires forall i :: 0 <= i < |kept| ==>
               if i % size == rank then RowTried(cfg, env, kept[i], LocalAlternatives(cfg, env, Names(kept), rank, size)[i])
               else RowPristine(kept[i], env)
    ensures ValidChoice(kept, alt)
    ensures forall j :: 0 <= j < |Chosen(kept, alt)| ==>
              View(Chosen(kept, alt)[j]) == InitialView(cfg, env, Chosen(kept, alt)[j].name, ChosenStations(alt)[j], rank, size)
  {
    ChosenAt(kept, alt);
    var w, s := Chosen(kept, alt), ChosenStations(alt);
    forall j | 0 <= j < |w|
      ensures View(w[j]) == InitialView(cfg, env, w[j].name, s[j], rank, size)
    {
      var i := s[j];
      var k := alt[i] - 1;
      assert w[j] == kept[i][k];
      assert RowViews(kept[i])[k] == View(kept[i][k]);
      if i % size == rank {
        assert RowViews(kept[i]) == TriedViews(cfg, env, NamesOf(kept[i]), alt[i]);
      } else {
        assert RowViews(kept[i]) == PristineViews(NamesOf(kept[i]), env);
      }
    }
  }

  /** ChosenAt for one index. */
  lemma ChosenAtIndex<T>(rows: seq<seq<T>>, alt: seq<nat>, j: nat)
    requires ValidChoice(rows, alt)
    requires j < |Chosen(rows, alt)|
    ensures ChosenStations(alt)[j] < |rows|
    ensures Chosen(rows, alt)[j] == rows[ChosenStations(alt)[j]][alt[ChosenStations(alt)[j]] - 1]
  {
    ChosenAt(rows, alt);
  }

  /** The row after storing the first m winners: what it was, then those winners. */
  lemma StoredParts(before: seq<Receiver>, winners: seq<Receiver>, m: nat, receivers: seq<Receiver>)
    requires m <= |winners| && receivers == before + winners[..m]
    ensures |receivers| == |before| + m && receivers[..|before|] == before
    ensures NamesOf(receivers[|before|..]) == NamesOf(winners)[..m]
    ensures forall j :: |before| <= j < |receivers| ==> receivers[j] == winners[j - |before|]
  {
    assert receivers[|before|..] == winners[..m];
  }

  /**
   * Appending the first m chosen receivers of a table of distinct receivers
   * to a row of distinct receivers none of which is among them keeps the
   * row distinct.
   */
  lemma StoredDistinct(before: seq<Receiver>, kept: seq<seq<Receiver>>, alt: seq<nat>, m: nat)
    requires DistinctRow(before) && Distinct(kept) && ValidChoice(kept, alt)
    requires m <= |Chosen(kept, alt)|
    requires forall k, j :: 0 <= k < |before| && 0 <= j < m ==> before[k] != Chosen(kept, alt)[j]
    ensures DistinctRow(before + Chosen(kept, alt)[..m])
  {
    var w := Chosen(kept, alt);
    DistinctChosen(kept, alt);
    DistinctRowAppend(before, w[..m]);
  }

  /** Two rows of distinct receivers with no receiver in common make one. */
  lemma DistinctRowAppend(a: seq<Receiver>, b: seq<Receiver>)
    requires DistinctRow(a) && DistinctRow(b)
    requires forall k, k' :: 0 <= k < |a| && 0 <= k' < |b| ==> a[k] != b[k']
    ensures DistinctRow(a + b)
  {
    var t := a + b;
    forall k, k' | 0 <= k < |t| && 0 <= k' < |t| && t[k] == t[k']
      ensures k == k'
    {
      if k < |a| && k' < |a| {
        assert a[k] == a[k'];
      } else if k >= |a| && k' >= |a| {
        assert b[k - |a|] == b[k' - |a|];
      }
    }
  }

  /**
   * Push the chosen alternative of every station with a nonzero entry, in
   * station order, onto the stored receivers, stopping once a push makes
   * them reach maxStationCount.
   */
  method StoreWinners(stored: seq<Receiver>, kept: seq<seq<Receiver>>, alt: seq<nat>, maxStationCount: nat)
    returns (receivers: seq<Receiver>)
    requires ValidChoice(kept, alt)
    ensures receivers ==
            stored + Chosen(kept, alt)[..StoredCount(|Chosen(kept, alt)|, |stored|, maxStationCount)]
  {
    ghost var w := Chosen(kept, alt);
    ghost var c := 0;
    receivers := stored;
    var i := 0;
    var done := false;
    while i < |kept| && !done
      invariant 0 <= i <= |kept|
      invariant c == |ChosenStations(alt[..i])| && c <= |w|
      invariant receivers == stored + w[..c]
      invariant done ==> c == StoredCount(|w|, |stored|, maxStationCount)
      invariant !done ==> c == 0 || |stored| + c < maxStationCount
    {
      StoreStep(stored, receivers, kept, alt, i, c);
      if alt[i] > 0 {
        receivers := receivers + [kept[i][alt[i] - 1]];
        c := c + 1;
        if |receivers| >= maxStationCount {
          StoredCountStop(c, |w|, |stored|, maxStationCount);
          done := true;
        }
      }
      i := i + 1;
    }
    if !done {
      assert alt[..i] == alt;
      StoredCountAll(|w|, |stored|, maxStationCount);
    }
  }

  /**
   * Station i of the store loop, after c winners: a nonzero entry pushes
   * the next winner, a zero entry none.
   */
  lemma StoreStep(stored: seq<Receiver>, receivers: seq<Receiver>, kept: seq<seq<Receiver>>, alt: seq<nat>, i: nat, c: nat)
    requires ValidChoice(kept, alt) && i < |kept|
    requires c == |ChosenStations(alt[..i])|
    requires c <= |Chosen(kept, alt)| && receivers == stored + Chosen(kept, alt)[..c]
    ensures |ChosenStations(alt[..i + 1])| == c + (if alt[i] > 0 then 1 else 0)
    ensures |ChosenStations(alt[..i + 1])| <= |Chosen(kept, alt)|
    ensures alt[i] > 0 ==>
              0 < alt[i] <= |kept[i]| &&
              receivers + [kept[i][alt[i] - 1]] == stored + Chosen(kept, alt)[..c + 1]
  {
    ChosenStationsNext(alt, i);
    if alt[i] > 0 {
      var w := Chosen(kept, alt);
      ChosenAtIndex(kept, alt, c);
      assert w[..c + 1] == w[..c] + [w[c]];
    }
  }

  /**
   * The row init leaves stored when `stored` was already present: that row,
   * then the first StoredCount winners, in the state InitialView gives them
   * on this process, with no receiver twice.
   */
  predicate InitStored(cfg: Config, env: Environment, table: seq<seq<string>>, rank: nat, size: nat,
                       stored: seq<Receiver>, receivers: seq<Receiver>)
    requires size > 0
    reads receivers
  {
    && DistinctRow(receivers)
    && |receivers| == |stored| + StoredCount(|Winners(cfg, env, table)|, |stored|, cfg.maxStationCount)
    && receivers[..|stored|] == stored
    && NamesOf(receivers[|stored|..]) == Winners(cfg, env, table)[..|receivers| - |stored|]
    && forall j :: |stored| <= j < |receivers| ==>
         View(receivers[j]) ==
         InitialView(cfg, env, receivers[j].name, WinnerStations(cfg, env, table)[j - |stored|], rank, size)
  }

  /** The receivers init stores after the row `stored`; the added ones are new objects. */
  method InitStations(stored: seq<Receiver>, table: seq<seq<string>>, cfg: Config, env: Environment, rank: nat, size: nat)
    returns (receivers: seq<Receiver>)
    requires size > 0 && rank < size
    requires DistinctRow(stored)
    ensures InitStored(cfg, env, table, rank, size, stored, receivers)
    ensures forall j :: |stored| <= j < |receivers| ==> fresh(receivers[j])
  {
    var kept, alt, winners := SelectWinners(table, cfg, env, rank, size);
    ghost var m := StoredCount(|winners|, |stored|, cfg.maxStationCount);
    StoredDistinct(stored, kept, alt, m);
    receivers := StoreWinners(stored, kept, alt, cfg.maxStationCount);
    InitStoredFrom(cfg, env, table, rank, size, stored, winners, receivers);
  }

  /**
   * The stored row is the old row followed by the first StoredCount winners,
   * which carry the winners' names and the states InitialView gives them.
   */
  lemma InitStoredFrom(cfg: Config, env: Environment, table: seq<seq<string>>, rank: nat, size: nat,
                       stored: seq<Receiver>, winners: seq<Receiver>, receivers: seq<Receiver>)
    requires size > 0
    requires NamesOf(winners) == Winners(cfg, env, table)
    requires |WinnerStations(cfg, env, table)| == |winners|
    requires forall j :: 0 <= j < |winners| ==>
               View(winners[j]) == InitialView(cfg, env, winners[j].name, WinnerStations(cfg, env, table)[j], rank, size)
    requires receivers == stored + winners[..StoredCount(|winners|, |stored|, cfg.maxStationCount)]
    requires DistinctRow(receivers)
    ensures InitStored(cfg, env, table, rank, size, stored, receivers)
    ensures forall j :: |stored| <= j < |receivers| ==> receivers[j] == winners[j - |stored|]
  {
    var m := StoredCount(|winners|, |stored|, cfg.maxStationCount);
    StoredParts(stored, winners, m, receivers);
  }

  // ---------------------------------------------------------------------
  // preprocessing

  /**
   * One receiver of the quality gate: if this process owns it, run the
   * preprocessing stages; a throwing stage disables it, otherwise the
   * usable epochs are counted and a failed ratio test disables it.  The
   * result says whether it was disabled here.
   */
  method PreprocessReceiver(recv: Receiver, cfg: Config, env: Environment) returns (disabled: bool)
    modifies recv
    ensures disabled == (old(recv.isMyRank) && PreprocessingFails(cfg, env, old(View(recv))))
    ensures View(recv) == AfterPreprocessing(cfg, env, old(View(recv)))
  {
    if !recv.isMyRank {
      return false;
    }
    var ok := recv.RunPreprocessingStages(env.preprocessingThrows(recv.name), env.preprocessingKeeps(recv.name));
    if !ok {
      recv.Disable();
      return true;
    }
    var countEpochs := CountUsableEpochs(recv);
    disabled := !RatioAccepted(countEpochs, recv.observationSampling, cfg.minEstimableEpochsRatio,
                               env.nEpochs, env.medianSampling);
    if disabled {
      recv.Disable();
    }
  }

  /** Preprocessing receiver i of a row leaves the other receivers of the row as they are. */
  method PreprocessInRow(row: seq<Receiver>, i: nat, cfg: Config, env: Environment) returns (disabled: bool)
    requires i < |row| && DistinctRow(row)
    modifies row[i]
    ensures disabled == (old(row[i].isMyRank) && PreprocessingFails(cfg, env, old(View(row[i]))))
    ensures View(row[i]) == AfterPreprocessing(cfg, env, old(View(row[i])))
    ensures forall j :: 0 <= j < |row| && j != i ==> View(row[j]) == old(View(row[j]))
  {
    disabled := PreprocessReceiver(row[i], cfg, env);
  }

  /** The loop of preprocessing over a row of distinct receivers, counting those it disables. */
  method PreprocessRow(rs: seq<Receiver>, cfg: Config, env: Environment) returns (disabledStations: nat)
    requires DistinctRow(rs)
    modifies rs
    ensures disabledStations == CountTrue(DisabledFlags(cfg, env, old(RowViews(rs))))
    ensures RowViews(rs) == AfterPreprocessingAll(cfg, env, old(RowViews(rs)))
  {
    ghost var before := RowViews(rs);
    disabledStations := 0;
    for i := 0 to |rs|
      invariant disabledStations == CountTrue(DisabledFlags(cfg, env, before)[..i])
      invariant forall j :: 0 <= j < i ==> View(rs[j]) == AfterPreprocessing(cfg, env, before[j])
      invariant forall j :: i <= j < |rs| ==> View(rs[j]) == before[j]
    {
      var disabled := PreprocessInRow(rs, i, cfg, env);
      CountTruePrefix(DisabledFlags(cfg, env, before), i);
      if disabled {
        disabledStations := disabledStations + 1;
      }
    }
    assert DisabledFlags(cfg, env, before)[..|rs|] == DisabledFlags(cfg, env, before);
    AfterPreprocessingPointwise(cfg, env, before, RowViews(rs));
  }

  /** AfterPreprocessingAll, receiver by receiver. */
  lemma AfterPreprocessingPointwise(cfg: Config, env: Environment, before: seq<ReceiverView>, after: seq<ReceiverView>)
    requires |after| == |before|
    requires forall j :: 0 <= j < |before| ==> after[j] == AfterPreprocessing(cfg, env, before[j])
    ensures after == AfterPreprocessingAll(cfg, env, before)
  {
  }

  lemma CountTruePrefix(s: seq<bool>, i: nat)
    requires i < |s|
    ensures CountTrue(s[..i + 1]) == CountTrue(s[..i]) + (if s[i] then 1 else 0)
  {
    assert s[..i + 1][..i] == s[..i];
  }

  /** The station network: the receivers it has stored so far. */
  class Network {
    const cfg: Config
    var receivers: seq<Receiver>

    /** No receiver is stored twice. */
    predicate Valid()
      reads this
    {
      DistinctRow(receivers)
    }

    constructor (cfg: Config)
      ensures this.cfg == cfg && receivers == []
      ensures Valid()
    {
      this.cfg := cfg;
      receivers := [];
    }

    /**
     * init: create the candidate receivers, drop the stations without one,
     * try the alternatives of the owned stations, gather the entries of all
     * processes and store the winners; receiversAll gets the stored
     * receivers appended.
     */
    method Init(table: seq<seq<string>>, env: Environment, rank: nat, size: nat, receiversAll: seq<Receiver>)
      returns (receiversAll': seq<Receiver>)
      requires size > 0 && rank < size
      requires Valid()
      modifies this
      ensures Valid()
      ensures InitStored(cfg, env, table, rank, size, old(receivers), receivers)
      ensures forall j :: |old(receivers)| <= j < |receivers| ==> fresh(receivers[j])
      ensures receiversAll' == receiversAll + receivers
    {
      receivers := InitStations(receivers, table, cfg, env, rank, size);
      receiversAll' := receiversAll + receivers;
    }

    /**
     * preprocessing: every receiver owned by this process runs the
     * preprocessing stages and the estimable-epochs ratio test; one that
     * throws or fails is disabled and counted.  Receivers of other
     * processes are not touched.
     */
    method Preprocessing(env: Environment) returns (disabledStations: nat)
      requires Valid()
      modifies receivers
      ensures Valid()
      ensures disabledStations == CountTrue(DisabledFlags(cfg, env, old(RowViews(receivers))))
      ensures RowViews(receivers) == AfterPreprocessingAll(cfg, env, old(RowViews(receivers)))
    {
      disabledStations := PreprocessRow(receivers, cfg, env);
    }
  }
}
