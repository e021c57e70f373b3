# GNSS station network and signal-bias parametrization (GROOPS)

This project models two parts of the GNSS processing of GROOPS in Dafny and
proves properties of them.

**The station-network receiver generator** (`GnssReceiverGeneratorStationNetwork`).
Its `init` step works in four stages:

1. It reads a table of stations. Each row lists a station's alternative names.
2. For every alternative, it creates a candidate receiver. An alternative is
   skipped when its observation file is missing or when loading its station
   information throws.
3. It drops the stations that have no candidate. It then distributes the
   remaining stations over the processes: station `i` goes to process
   `i mod size`. The owning process tries the alternatives of each of its
   stations in order:
   - it disables the epochs without a complete antenna definition;
   - in the simulation case (no observation file configured), it accepts the
     first alternative;
   - otherwise it reads the observations and accepts the alternative when the
     usable epochs pass the estimable-epochs ratio test.
4. The per-process entries ("k+1 for the first accepted alternative, 0 for
   none") are summed over the processes and broadcast to all of them. The
   chosen receivers are then stored in station order. Storing stops after the
   push that reaches `maxStationCount`.

Its `preprocessing` step runs the preprocessing stages on every receiver that
this process owns. A receiver is disabled and counted when a stage throws, or
when the usable epochs left afterwards fail the ratio test.

**The signal-bias parametrization** (`GnssParametrizationSignalBiases`).
- `init` reads the signal biases of the selected, usable transmitters and
  receivers from the configured files. A transmitter or receiver whose file
  cannot be read is disabled.
- `writeResults` writes nothing when the parametrization is not enabled.
  Otherwise it writes one file per usable, selected transmitter, but only on
  the master process and when receivers are not processed separately. It also
  writes one file per selected receiver that this process owns and whose
  biases are estimated. Each file holds a copy of the stored biases in which
  every PHASE bias is wrapped into one wavelength: `remainder(bias, c/f)` in
  IEEE-754 semantics.

The modules are:

- `Wrappers`: `Option`.
- `IeeeRemainder`: round-half-even and `remainder`, over exact reals.
- `GnssSignalBias`: signal types, signal-bias records, and the phase wrap.
- `GnssTransmitter` and `GnssReceiver`: the mutable transmitter and receiver
  objects (classes). They cover the usability flags, per-epoch flags,
  sampling, signal biases, epoch counting and the ratio test.
- `StationSelection`: the selection rules stated over names, as
  specification functions. These are the candidates, the surviving stations,
  the first usable alternative, the per-process vectors and their sum, the
  chosen and stored receivers, and the preprocessing gate.
- `StationNetwork`: the imperative `init` and `preprocessing`. They are
  methods over receiver objects, proved against the functions of
  `StationSelection`.
- `GnssParametrizationSignalBiases`: the imperative `init` and
  `writeResults`, together with the functions that specify the files written.

All file access, and the receiver code outside this model, is replaced by
inputs:
- the `Environment` oracles of `StationSelection`;
- the `read` function;
- the selector flags.

## Model

| member | source | states |
|---|---|---|
| StationSelection.IsCandidate | source/gnss/gnssReceiverGenerator/gnssReceiverGeneratorStationNetwork.cpp:123-153 | definition without a contract of its own: an alternative is loaded unless an observation file is configured and missing, or reading or filling its station info throws |
| StationSelection.Candidates | source/gnss/gnssReceiverGenerator/gnssReceiverGeneratorStationNetwork.cpp:117-159 | the candidates of a station, in row order; at most as many as its alternatives |
| StationSelection.CandidatesMembers | source/gnss/gnssReceiverGenerator/gnssReceiverGeneratorStationNetwork.cpp:117-159 | a name is a candidate of a station exactly when it is one of its alternatives, its observation file exists (or no observation file is configured) and loading its station info does not throw |
| StationSelection.CandidatesSkipOnly | source/gnss/gnssReceiverGenerator/gnssReceiverGeneratorStationNetwork.cpp:120-158 | each alternative adds itself or nothing: a skipped or throwing alternative removes only itself, later ones are still tried |
| StationNetwork.CreateStationCandidates | source/gnss/gnssReceiverGenerator/gnssReceiverGeneratorStationNetwork.cpp:118-158 | the receivers created for one station are new, distinct objects named by the candidates in row order, each owned by no process, enabled, with every epoch usable, the created sampling and no signal biases |
| StationNetwork.AddCandidate | source/gnss/gnssReceiverGenerator/gnssReceiverGeneratorStationNetwork.cpp:120-157 | one alternative appends a new pristine receiver (owned by no process, enabled, every epoch usable, no signal biases) exactly when it is a candidate, and leaves the row otherwise |
| StationNetwork.AddStation | source/gnss/gnssReceiverGenerator/gnssReceiverGeneratorStationNetwork.cpp:117-159 | one more station appends a row of new pristine receivers (no signal biases) named by its candidates, keeping the earlier rows and keeping all receivers distinct |
| StationNetwork.CreateCandidates | source/gnss/gnssReceiverGenerator/gnssReceiverGeneratorStationNetwork.cpp:116-159 | receiversWithAlternatives has one row per station of the list, its names are the candidate table, every receiver is new and pristine (no signal biases), and no receiver object occurs twice |
| StationSelection.NonEmptyRows | source/gnss/gnssReceiverGenerator/gnssReceiverGeneratorStationNetwork.cpp:162-163 | the rows left by the erase: no more than the table has, and none of them empty |
| StationSelection.Stations | source/gnss/gnssReceiverGenerator/gnssReceiverGeneratorStationNetwork.cpp:116-163 | the surviving stations, the non-empty rows of the candidate table, each with at least one candidate |
| StationSelection.NonEmptyRowsMembers | source/gnss/gnssReceiverGenerator/gnssReceiverGeneratorStationNetwork.cpp:162-163 | only rows of the table survive the erase, and every non-empty row does |
| StationNetwork.RemoveEmptyStations | source/gnss/gnssReceiverGenerator/gnssReceiverGeneratorStationNetwork.cpp:162-163 | the kept rows are the non-empty rows, taken from strictly increasing positions of the original table (order preserved) |
| StationNetwork.NamesNonEmptyRows | source/gnss/gnssReceiverGenerator/gnssReceiverGeneratorStationNetwork.cpp:162-163 | removing empty stations and taking names commute: the surviving receiver rows are named by the non-empty candidate rows |
| StationNetwork.DistinctKept | source/gnss/gnssReceiverGenerator/gnssReceiverGeneratorStationNetwork.cpp:162-163 | the erase keeps receiver objects distinct |
| StationNetwork.CreateStations | source/gnss/gnssReceiverGenerator/gnssReceiverGeneratorStationNetwork.cpp:116-163 | the surviving stations are named by Stations (the non-empty candidate rows), as distinct, new, pristine receivers with no signal biases |
| StationSelection.TestedEpochs | source/gnss/gnssReceiverGenerator/gnssReceiverGeneratorStationNetwork.cpp:189-210 | trying an alternative only disables epochs: an epoch usable afterwards was usable before and has a complete antenna |
| StationNetwork.DisableEpochsWithoutAntenna | source/gnss/gnssReceiverGenerator/gnssReceiverGeneratorStationNetwork.cpp:189-199 | epoch e stays usable exactly when it was usable and an antenna with both an antenna and an accuracy definition is found at it; ownership, usability, sampling and signal biases are unchanged |
| StationNetwork.TestAlternative | source/gnss/gnssReceiverGenerator/gnssReceiverGeneratorStationNetwork.cpp:179-222 | trying one alternative takes ownership, leaves the epoch flags and the sampling as TestedEpochs and TestedSampling say and the signal biases as they were, and accepts it exactly when Passes holds: always in the simulation case, otherwise when the read does not throw and the ratio test passes |
| StationNetwork.TestCreated | source/gnss/gnssReceiverGenerator/gnssReceiverGeneratorStationNetwork.cpp:179-222 | a freshly created receiver is accepted exactly when it is Usable, and is left in its tried state TestedView, which still holds no signal biases |
| StationNetwork.TestInRow | source/gnss/gnssReceiverGenerator/gnssReceiverGeneratorStationNetwork.cpp:174-227 | trying alternative k of a station leaves it in its tried state (no signal biases) and changes no other receiver |
| StationNetwork.TestAlternatives | source/gnss/gnssReceiverGenerator/gnssReceiverGeneratorStationNetwork.cpp:174-228 | the loop over alternatives records FirstUsable of the row's names; the alternatives up to and including the recorded one (all of them when it is 0) are tried, the later ones stay untouched; every receiver of the row keeps its empty signal biases |
| StationNetwork.TestStation | source/gnss/gnssReceiverGenerator/gnssReceiverGeneratorStationNetwork.cpp:174-228 | a station's entry is FirstUsable of its names and its row is left in the state TriedViews describes, in which no receiver has signal biases |
| StationSelection.TestedSampling | source/gnss/gnssReceiverGenerator/gnssReceiverGeneratorStationNetwork.cpp:209-210 | definition without a contract of its own: the observation sampling is the one the read sets, unless the read throws or it is the simulation case |
| StationSelection.Passes | source/gnss/gnssReceiverGenerator/gnssReceiverGeneratorStationNetwork.cpp:201-222 | definition without a contract of its own: an alternative is accepted in the simulation case, otherwise when the read does not throw and the usable epochs left pass RatioAccepted |
| StationSelection.Usable | source/gnss/gnssReceiverGenerator/gnssReceiverGeneratorStationNetwork.cpp:174-222 | definition without a contract of its own: Passes for a receiver as created, with every epoch usable |
| StationSelection.FirstUsable | source/gnss/gnssReceiverGenerator/gnssReceiverGeneratorStationNetwork.cpp:174-228 | the entry of a station, k+1 for its first usable alternative k and 0 when none is; it is at most the number of alternatives |
| StationSelection.FirstUsableNone | source/gnss/gnssReceiverGenerator/gnssReceiverGeneratorStationNetwork.cpp:174-228 | a station's entry is 0 if and only if none of its alternatives is usable |
| StationSelection.FirstUsableFound | source/gnss/gnssReceiverGenerator/gnssReceiverGeneratorStationNetwork.cpp:218-222 | a nonzero entry k+1 names a usable alternative k, and every alternative before it is unusable |
| StationSelection.FirstUsableAt | source/gnss/gnssReceiverGenerator/gnssReceiverGeneratorStationNetwork.cpp:220-222 | when alternative k is usable and none before it is, the entry is k+1 |
| StationSelection.SimulationTakesFirst | source/gnss/gnssReceiverGenerator/gnssReceiverGeneratorStationNetwork.cpp:202-206 | in the simulation case every station with a candidate takes its first alternative |
| GnssReceiver.CountUsableEpochs | source/gnss/gnssReceiverGenerator/gnssReceiverGeneratorStationNetwork.cpp:213-216 | the loop counts the usable epochs (CountTrue of the epoch flags), at most the number of epochs |
| GnssReceiver.CountTrue | source/gnss/gnssReceiverGenerator/gnssReceiverGeneratorStationNetwork.cpp:213-216 | the number of usable epochs, never more than the number of epochs |
| GnssReceiver.CountTrueExtremes | source/gnss/gnssReceiverGenerator/gnssReceiverGeneratorStationNetwork.cpp:336-339 | the count equals the number of epochs exactly when all are usable, and is 0 exactly when none is |
| GnssReceiver.CountTrueMonotone | source/gnss/gnssReceiverGenerator/gnssReceiverGeneratorStationNetwork.cpp:336-339 | disabling epochs never increases the count |
| GnssReceiver.RatioAccepted | source/gnss/gnssReceiverGenerator/gnssReceiverGeneratorStationNetwork.cpp:217-218 | definition without a contract of its own: the ratio test rejects exactly when countEpochs*observationSampling < minEstimableEpochsRatio*nEpochs*medianSampling |
| GnssReceiver.RatioAcceptedMonotone | source/gnss/gnssReceiverGenerator/gnssReceiverGeneratorStationNetwork.cpp:217-218 | with a non-negative sampling, more usable epochs never turn a passing ratio test into a failing one |
| StationNetwork.VisitStation | source/gnss/gnssReceiverGenerator/gnssReceiverGeneratorStationNetwork.cpp:170-229 | an owned station gets its FirstUsable entry and is tried; a station of another process keeps entry 0 and stays pristine; no other station changes, and no receiver gets signal biases |
| StationNetwork.SelectAlternatives | source/gnss/gnssReceiverGenerator/gnssReceiverGeneratorStationNetwork.cpp:168-229 | the local receiverAlternative vector is LocalAlternatives: FirstUsable for stations with i mod size == rank, 0 elsewhere; owned stations are left tried and the others pristine, all without signal biases |
| StationSelection.LocalAlternatives | source/gnss/gnssReceiverGenerator/gnssReceiverGeneratorStationNetwork.cpp:168-229 | definition without a contract of its own: the vector one process fills, FirstUsable for the stations i with i mod size == rank and 0 for all others; its properties are stated by SumAtPerRank and ReduceSumGathers |
| StationSelection.ReduceSum | source/gnss/gnssReceiverGenerator/gnssReceiverGeneratorStationNetwork.cpp:232 | definition without a contract of its own: the vector reduceSum leaves, n entries, each the sum of that entry over the per-process vectors; its properties are stated by ReduceSumGathers and SelectionIndependentOfSharding |
| StationSelection.SumAtPerRank | source/gnss/gnssReceiverGenerator/gnssReceiverGeneratorStationNetwork.cpp:232 | summing the vectors of the first ranks processes gives a station's entry exactly when its owner is among them, 0 otherwise |
| StationSelection.ReduceSumGathers | source/gnss/gnssReceiverGenerator/gnssReceiverGeneratorStationNetwork.cpp:230-233 | the element-wise sum over all processes is the vector of every station's FirstUsable entry |
| StationSelection.SelectionIndependentOfSharding | source/gnss/gnssReceiverGenerator/gnssReceiverGeneratorStationNetwork.cpp:168-233 | the reduced vector is the same for any two numbers of processes |
| StationSelection.Alternatives | source/gnss/gnssReceiverGenerator/gnssReceiverGeneratorStationNetwork.cpp:232-233 | every broadcast entry is 0 or names an alternative of its station |
| StationNetwork.ChooseAlternatives | source/gnss/gnssReceiverGenerator/gnssReceiverGeneratorStationNetwork.cpp:168-233 | after the reduction and broadcast every process holds Alternatives of the stations; the chosen receiver of each station is in the state InitialView gives it on this process, which holds no signal biases |
| StationNetwork.SelectWinners | source/gnss/gnssReceiverGenerator/gnssReceiverGeneratorStationNetwork.cpp:116-233 | the chosen receivers are distinct objects named by Winners, from the stations WinnerStations, in their InitialView state (no signal biases) |
| StationSelection.ChosenStations | source/gnss/gnssReceiverGenerator/gnssReceiverGeneratorStationNetwork.cpp:237-238 | the stations the store loop pushes from: each is a valid position with a nonzero entry |
| StationSelection.Winners | source/gnss/gnssReceiverGenerator/gnssReceiverGeneratorStationNetwork.cpp:237-240 | definition without a contract of its own: the chosen alternative of every station with a nonzero entry, in station order |
| StationSelection.ChosenStationsOrdered | source/gnss/gnssReceiverGenerator/gnssReceiverGeneratorStationNetwork.cpp:237-238 | stations with a nonzero entry are listed in increasing order and every one of them is listed |
| StationSelection.ChosenAt | source/gnss/gnssReceiverGenerator/gnssReceiverGeneratorStationNetwork.cpp:237-240 | the j-th winner is alternative entry-1 of the j-th station with a nonzero entry |
| StationSelection.ChosenStationsNext | source/gnss/gnssReceiverGenerator/gnssReceiverGeneratorStationNetwork.cpp:238-240 | station i adds one winner exactly when its entry is nonzero, and then it is the next station of the chosen list |
| StationNetwork.DistinctChosen | source/gnss/gnssReceiverGenerator/gnssReceiverGeneratorStationNetwork.cpp:237-240 | no receiver is chosen twice |
| StationSelection.StoredCount | source/gnss/gnssReceiverGenerator/gnssReceiverGeneratorStationNetwork.cpp:237-243 | the store loop pushes at most all winners, at least one when there is any (the size check follows the push), and stops early only once maxStationCount is reached |
| StationSelection.StoredCountStop | source/gnss/gnssReceiverGenerator/gnssReceiverGeneratorStationNetwork.cpp:241-242 | a loop that breaks after its c-th push, the first one to reach maxStationCount, has stored StoredCount receivers |
| StationSelection.StoredCountAll | source/gnss/gnssReceiverGenerator/gnssReceiverGeneratorStationNetwork.cpp:237-243 | a loop that never reaches maxStationCount stores every winner |
| StationSelection.StoredCountBound | source/gnss/gnssReceiverGenerator/gnssReceiverGeneratorStationNetwork.cpp:241-242 | starting from no receivers, at most max(maxStationCount, 1) are stored |
| StationNetwork.StoreStep | source/gnss/gnssReceiverGenerator/gnssReceiverGeneratorStationNetwork.cpp:238-240 | one station of the store loop pushes exactly the next winner when its entry is nonzero |
| StationNetwork.StoreWinners | source/gnss/gnssReceiverGenerator/gnssReceiverGeneratorStationNetwork.cpp:237-243 | the stored receivers are the earlier ones followed by the first StoredCount winners in station order |
| StationSelection.WinnerIsFirstUsable | source/gnss/gnssReceiverGenerator/gnssReceiverGeneratorStationNetwork.cpp:174-240 | every winner is a usable alternative of its station and every alternative listed before it is unusable |
| StationSelection.UsableStationWins | source/gnss/gnssReceiverGenerator/gnssReceiverGeneratorStationNetwork.cpp:174-240 | every surviving station with at least one usable alternative is among the winner stations |
| StationNetwork.InitStoredFrom | source/gnss/gnssReceiverGenerator/gnssReceiverGeneratorStationNetwork.cpp:237-243 | storing the first StoredCount winners establishes InitStored |
| StationNetwork.InitStations | source/gnss/gnssReceiverGenerator/gnssReceiverGeneratorStationNetwork.cpp:116-243 | init stores, after the earlier receivers, the first StoredCount winners, new and distinct, named in station order, each tried when this process owns its station and pristine otherwise, and none with signal biases |
| StationNetwork.Network.Init | source/gnss/gnssReceiverGenerator/gnssReceiverGeneratorStationNetwork.cpp:112-244 | the network's receivers satisfy InitStored (each in its InitialView state, so without signal biases) and stay distinct, and receiversAll gets the stored receivers appended |
| StationSelection.PreprocessedEpochs | source/gnss/gnssReceiverGenerator/gnssReceiverGeneratorStationNetwork.cpp:324-332 | the preprocessing stages only disable epochs |
| StationSelection.AfterPreprocessing | source/gnss/gnssReceiverGenerator/gnssReceiverGeneratorStationNetwork.cpp:318-351 | a receiver of another process is untouched; an owned receiver stays usable exactly when it was usable and preprocessing does not fail; name, ownership, sampling and signal biases never change |
| StationSelection.AfterPreprocessingOnlyDisables | source/gnss/gnssReceiverGenerator/gnssReceiverGeneratorStationNetwork.cpp:318-351 | preprocessing never enables a receiver or an epoch |
| StationSelection.DisabledFlags | source/gnss/gnssReceiverGenerator/gnssReceiverGeneratorStationNetwork.cpp:336-351 | definition without a contract of its own: entry j holds exactly when receiver j is owned by this process and PreprocessingFails |
| StationSelection.PreprocessingFails | source/gnss/gnssReceiverGenerator/gnssReceiverGeneratorStationNetwork.cpp:336-350 | definition without a contract of its own: a stage throws, or the epochs left by the stages fail the ratio test |
| StationSelection.InitialViewHasNoBiases | source/gnss/gnssReceiverGenerator/gnssReceiverGeneratorStationNetwork.cpp:116-243 | selection never touches the signal biases: every receiver init stores, tried or not, holds the empty biases it was created with, under its own name |
| StationSelection.SimulationKeepsCreatedSampling | source/gnss/gnssReceiverGenerator/gnssReceiverGeneratorStationNetwork.cpp:336-344 | in the simulation case (line 202 skips the read) a tried receiver keeps the sampling it was created with, so with a created sampling of 0 and a positive ratio, epoch count and median sampling, preprocessing disables it |
| StationSelection.LowRatioAlwaysDisabled | source/gnss/gnssReceiverGenerator/gnssReceiverGeneratorStationNetwork.cpp:336-344 | an owned receiver whose epochs already fail the ratio test before preprocessing is disabled, whatever the stages do |
| StationNetwork.PreprocessReceiver | source/gnss/gnssReceiverGenerator/gnssReceiverGeneratorStationNetwork.cpp:318-351 | one receiver ends in the AfterPreprocessing state, keeping its signal biases, and is counted exactly when owned and failing |
| StationNetwork.PreprocessInRow | source/gnss/gnssReceiverGenerator/gnssReceiverGeneratorStationNetwork.cpp:315-353 | preprocessing receiver i leaves it in its AfterPreprocessing state, signal biases kept, and changes no other receiver |
| StationNetwork.PreprocessRow | source/gnss/gnssReceiverGenerator/gnssReceiverGeneratorStationNetwork.cpp:315-353 | every receiver ends in its AfterPreprocessing state (signal biases kept), and the count is the number of receivers this process owns for which a stage throws or the ratio test fails (CountTrue of DisabledFlags, whose entry j is exactly that condition for receiver j) |
| StationNetwork.Network.Preprocessing | source/gnss/gnssReceiverGenerator/gnssReceiverGeneratorStationNetwork.cpp:307-356 | the network's receivers are preprocessed as PreprocessRow states (signal biases kept), distinct as before, and disabledStations counts this process's disabled receivers |
| GnssReceiver.Receiver.constructor | source/gnss/gnssReceiverGenerator/gnssReceiverGeneratorStationNetwork.cpp:152 | a new receiver is owned by no process, enabled, every epoch usable, has no signal biases, and holds the observation sampling it is given (the receiver class's initial value, an input) |
| GnssReceiver.Receiver.DisableEpoch | source/gnss/gnssReceiverGenerator/gnssReceiverGeneratorStationNetwork.cpp:198 | disable(idEpoch) clears that epoch's flag only |
| GnssReceiver.Receiver.ReadObservations | source/gnss/gnssReceiverGenerator/gnssReceiverGeneratorStationNetwork.cpp:209-210 | a throwing read changes nothing; a successful one sets the sampling and disables epochs without observations |
| GnssReceiver.Receiver.RunPreprocessingStages | source/gnss/gnssReceiverGenerator/gnssReceiverGeneratorStationNetwork.cpp:324-332 | the stages either throw or disable the epochs they reject |
| GnssReceiver.Receiver.Disable | source/gnss/gnssReceiverGenerator/gnssReceiverGeneratorStationNetwork.cpp:342-349 | disable() switches the receiver off and keeps its epoch flags, sampling and biases |
| GnssTransmitter.Transmitter.Disable | source/gnss/gnssParametrization/gnssParametrizationSignalBiases.cpp:65 | disable() switches the transmitter off and keeps its biases |
| GnssParametrizationSignalBiases.Resolve | source/gnss/gnssParametrization/gnssParametrizationSignalBiases.cpp:59-60 | definition without a contract of its own (Part.Variable carries the variable name): the file name with the one variable of the loop's variable list set to the transmitter or station name; a variable the list does not hold stays as its text |
| GnssParametrizationSignalBiases.ResolveIgnoresOtherValue | source/gnss/gnssParametrization/gnssParametrizationSignalBiases.cpp:80-81 | the value set for the variable v reaches only the parts that name v: a template without v resolves alike whatever the value |
| GnssParametrizationSignalBiases.ResolveEmpty | source/gnss/gnssParametrization/gnssParametrizationSignalBiases.cpp:49 | an empty file name template resolves to the empty name for every transmitter or station |
| GnssParametrizationSignalBiases.AfterRead | source/gnss/gnssParametrization/gnssParametrizationSignalBiases.cpp:54-67 | definition without a contract of its own: a transceiver is visited when the gating template is configured and it is selected and usable; then the file from the used template and the loop's variable is read, and its biases are stored or the transceiver is disabled |
| GnssParametrizationSignalBiases.AfterReadUsable | source/gnss/gnssParametrization/gnssParametrizationSignalBiases.cpp:54-67 | after init a transmitter or receiver is usable exactly when it was usable and was not visited or its file was read |
| GnssParametrizationSignalBiases.AfterReadBias | source/gnss/gnssParametrization/gnssParametrizationSignalBiases.cpp:54-67 | an unvisited one is untouched; a visited one gets the biases of its file when the read succeeds and keeps its biases otherwise |
| GnssParametrizationSignalBiases.ReadTransmitterAt | source/gnss/gnssParametrization/gnssParametrizationSignalBiases.cpp:55-66 | transmitter i ends in the AfterRead state and no other transmitter changes |
| GnssParametrizationSignalBiases.ReadTransmitterBiases | source/gnss/gnssParametrization/gnssParametrizationSignalBiases.cpp:49-68 | every transmitter ends in its AfterRead state for the transmitter template |
| GnssParametrizationSignalBiases.ReadReceiverAt | source/gnss/gnssParametrization/gnssParametrizationSignalBiases.cpp:76-87 | receiver i ends in the AfterRead state with the {station} variable, no other receiver changes its usability or biases, and no receiver changes its ownership, epoch flags or sampling |
| GnssParametrizationSignalBiases.ReadReceiverBiases | source/gnss/gnssParametrization/gnssParametrizationSignalBiases.cpp:70-89 | every receiver ends in its AfterRead state for the gating and the read template with the {station} variable, keeping its ownership, epoch flags and sampling |
| GnssParametrizationSignalBiases.SignalBiases.Init | source/gnss/gnssParametrization/gnssParametrizationSignalBiases.cpp:43-95 | init keeps the transceiver lists; transmitters are read from the transmitter template with {prn}, receivers from the receiver template with {station} (corrected line 81); receivers keep their ownership, epoch flags and sampling |
| GnssParametrizationSignalBiases.SignalBiases.InitAsWritten | source/gnss/gnssParametrization/gnssParametrizationSignalBiases.cpp:70-89 | as written: the receiver loop is gated by the receiver template but reads the file the transmitter template gives with the {station} variable list; receivers keep their ownership, epoch flags and sampling |
| GnssParametrizationSignalBiases.ReceiverReadAsWrittenDisables | source/gnss/gnssParametrization/gnssParametrizationSignalBiases.cpp:81 | with only a receiver template configured, the as-written read disables a receiver whose file exists, while the corrected read loads its biases |
| GnssParametrizationSignalBiases.ReceiverReadAsWrittenUnresolved | source/gnss/gnssParametrization/gnssParametrizationSignalBiases.cpp:73-81 | with both templates configured as bias_{prn} and bias_{station}, the as-written read resolves bias_{prn} (the list holds only station), so the receiver is disabled, while the corrected read loads its biases |
| GnssParametrizationSignalBiases.ResolvePrefixVariable | source/gnss/gnssParametrization/gnssParametrizationSignalBiases.cpp:80-81 | a template of a literal prefix p and one variable x resolves to p followed by the value when x is the variable set, and to p followed by the text {x} otherwise |
| GnssSignalBias.Wavelength | source/gnss/gnssParametrization/gnssParametrizationSignalBiases.cpp:118 | the wavelength c/f of every signal type is positive, so the remainder is defined |
| GnssSignalBias.Wrapped | source/gnss/gnssParametrization/gnssParametrizationSignalBiases.cpp:115-118 | definition without a contract of its own: the copy with every PHASE bias replaced by its remainder against the wavelength, None when a PHASE type has no bias entry |
| GnssSignalBias.WrapPhaseBiases | source/gnss/gnssParametrization/gnssParametrizationSignalBiases.cpp:115-118 | the loop over the types of a copy yields Wrapped of the record, failing when a PHASE type has no bias entry |
| GnssSignalBias.WrappedFailsIff | source/gnss/gnssParametrization/gnssParametrizationSignalBiases.cpp:116-118 | the wrap throws exactly when some PHASE type has no bias entry |
| GnssSignalBias.WrappedPhaseBounds | source/gnss/gnssParametrization/gnssParametrizationSignalBiases.cpp:117-118 | every written PHASE bias is the remainder of the stored bias against its wavelength and lies within half a wavelength of 0 |
| GnssSignalBias.WrappedKeepsOthers | source/gnss/gnssParametrization/gnssParametrizationSignalBiases.cpp:115-118 | the types, the number of biases and every non-PHASE bias are written as stored |
| GnssSignalBias.WrappedIdempotent | source/gnss/gnssParametrization/gnssParametrizationSignalBiases.cpp:115-118 | wrapping a written copy again changes nothing |
| IeeeRemainder.RoundHalfEven | source/gnss/gnssParametrization/gnssParametrizationSignalBiases.cpp:118 | the quotient is rounded to a nearest integer, ties to even, as std::remainder does |
| IeeeRemainder.RoundHalfEvenUnique | source/gnss/gnssParametrization/gnssParametrizationSignalBiases.cpp:118 | that nearest-even integer is unique |
| IeeeRemainder.Remainder | source/gnss/gnssParametrization/gnssParametrizationSignalBiases.cpp:118 | remainder(x, y) lies in [-y/2, y/2], differs from x by an integer multiple of y, and the multiple is even on a tie |
| IeeeRemainder.RemainderUnique | source/gnss/gnssParametrization/gnssParametrizationSignalBiases.cpp:118 | those three properties determine the remainder |
| IeeeRemainder.RemainderIdempotent | source/gnss/gnssParametrization/gnssParametrizationSignalBiases.cpp:118 | the remainder of a remainder is itself |
| IeeeRemainder.RemainderOfWrapped | source/gnss/gnssParametrization/gnssParametrizationSignalBiases.cpp:118 | a bias strictly inside half a wavelength is written unchanged |
| IeeeRemainder.RemainderPeriodic | source/gnss/gnssParametrization/gnssParametrizationSignalBiases.cpp:118 | off a tie, biases a whole number of wavelengths apart are written alike |
| IeeeRemainder.RemainderTieNotPeriodic | source/gnss/gnssParametrization/gnssParametrizationSignalBiases.cpp:118 | on a tie the even rule breaks periodicity: remainder(0.5, 1) is 0.5 but remainder(1.5, 1) is -0.5 |
| GnssParametrizationSignalBiases.WriteAll | source/gnss/gnssParametrization/gnssParametrizationSignalBiases.cpp:112-121 | one file per entry in order until a wrap throws; never more files than entries |
| GnssParametrizationSignalBiases.Outputs | source/gnss/gnssParametrization/gnssParametrizationSignalBiases.cpp:99-146 | definition without a contract of its own: nothing when not enabled, else the transmitter files when configured, on the master and not receiver by receiver, then, unless those threw, the receiver files when configured |
| GnssParametrizationSignalBiases.Kept | source/gnss/gnssParametrization/gnssParametrizationSignalBiases.cpp:112-113 | the entries the write loop visits, in their order, never more than there are entries |
| GnssParametrizationSignalBiases.TransmitterKeep | source/gnss/gnssParametrization/gnssParametrizationSignalBiases.cpp:113 | definition without a contract of its own: a transmitter is written when it is usable and selected |
| GnssParametrizationSignalBiases.ReceiverKeep | source/gnss/gnssParametrization/gnssParametrizationSignalBiases.cpp:131 | definition without a contract of its own: a receiver is written when this process owns it, it is selected and its biases are estimated |
| GnssParametrizationSignalBiases.KeptMembers | source/gnss/gnssParametrization/gnssParametrizationSignalBiases.cpp:112-113 | the filtered list holds every flagged entry and nothing else |
| GnssParametrizationSignalBiases.WriteAllFiles | source/gnss/gnssParametrization/gnssParametrizationSignalBiases.cpp:112-121 | files are written in order, one per entry, each with the wrapped biases and the resolved name, up to the first entry whose wrap throws; writing completes exactly when none throws |
| GnssParametrizationSignalBiases.WriteAllStuck | source/gnss/gnssParametrization/gnssParametrizationSignalBiases.cpp:142-145 | once a wrap has thrown nothing more is written |
| GnssParametrizationSignalBiases.WriteSelected | source/gnss/gnssParametrization/gnssParametrizationSignalBiases.cpp:112-121 | the write loop over one list produces WriteAll of the kept entries |
| GnssParametrizationSignalBiases.SignalBiases.WriteResults | source/gnss/gnssParametrization/gnssParametrizationSignalBiases.cpp:99-146 | writeResults writes exactly Outputs: nothing when not enabled; the files of the usable, selected transmitters (only on the master and not receiver by receiver); then the files of the receivers this process owns that are selected and estimated; and it changes no state |
| GnssParametrizationSignalBiases.OutputsSound | source/gnss/gnssParametrization/gnssParametrizationSignalBiases.cpp:103-140 | every file written belongs to a kept transmitter or receiver of a configured output and holds the wrapped copy of its biases; nothing is written unless enabled |
| GnssParametrizationSignalBiases.OutputsComplete | source/gnss/gnssParametrization/gnssParametrizationSignalBiases.cpp:106-140 | when writing ran to the end, every kept transmitter and receiver of a configured output has its file among those written |

## Left out

- File input and output: reading the station list, station info, antenna, receiver and accuracy definitions, the station positions, the observation files and the signal-bias files, and writing the signal-bias files. Their outcomes are the `Environment` oracles and the `read` function; a written file is a record of its resolved name, the `appendBaseName` suffix and the biases written.
- MPI: `reduceSum` and `broadCast` of the alternative vector are the element-wise sum of the per-process vectors `PerRank`; `barrier` and `peek` have no observable effect in the model.
- StationNetwork.Network.Preprocessing: returns this process's count of disabled receivers; the `reduceSum` of that count over the processes at line 355 is not modelled.
- Logging, timers and the warnings about incomplete antennas (lines 147-150, 157, 226, 348) produce no state and are left out.
- The approximate station position (lines 132-145) and the per-epoch arrays `times`, `clk`, `pos`, `vel`, `offset`, `global2local`, `local2antenna` (lines 182-195) are not modelled; only the epoch flags, the ownership flag and the observation sampling are.
- Tides and loading and the rest of the generator after line 246, and the parametrization's other operations (normal equations, updates) are not part of this model.
- GnssReceiver.Receiver.constructor: the GnssReceiver class is not part of this model, so the observation sampling a receiver starts with is the input `createdSampling` of `Environment`. In the simulation case line 202 skips `readObservations`, and preprocessing (lines 315-351) has no simulation case, so the ratio test there uses that initial sampling (SimulationKeepsCreatedSampling): with an initial sampling of 0 and ratio, epoch count and median sampling all positive, every owned receiver is disabled.
- GnssReceiver.Receiver.ReadObservations: `readObservations` is an oracle (throws, or a sampling and the epochs with observations); the observation data themselves are not modelled.
- GnssReceiver.Receiver.RunPreprocessingStages: the preprocessing stages at lines 324-332 are one oracle — they throw, or disable the epochs they reject; a stage that throws after disabling some epochs is modelled as leaving the epoch flags as they were (the receiver is disabled either way).
- StationSelection.TestedEpochs: an exception from the antenna lookup or the array resizes inside the try block is not modelled; only a throwing `readObservations` rejects an alternative.
- The receiver's `useable(idEpoch)` is its per-epoch flag; the whole-receiver flag `usable` is kept apart from it, and the epoch count of a receiver is the length of its own flag sequence (the number of processing epochs).
- `medianSampling(times).seconds()` and the number of epochs are inputs; frequencies of signal types are inputs (positive reals); `std::remainder` is modelled over exact reals (IEEE-754 rounding of the division and of c/f is not modelled).
- The transmitter and receiver selectors are input sequences of flags; `idTrans()`/`idRecv()` are taken to be positions in the lists, and the lists are required to hold distinct objects.
- File name templates are sequences of literal text and named variables. Each loop's variable list holds one variable (`prn` or `station`). A variable the list does not hold is kept as its text `{name}` in the resolved name. The template parser is not part of this model, and expressions and the other template features are not modelled.
- StationSelection.SimulationTakesFirst: line 204 records 1, not k+1. Were alternative 0 to throw in the antenna lookup or the resizes (not modelled, see TestedEpochs), the source would record an alternative that failed. In the model alternative 0 is always tried and accepted in the simulation case.
- GnssParametrizationSignalBiases.AfterRead: a signal-bias file whose read throws part-way is modelled as leaving the stored biases unchanged.
- Aliasing between the generator's own `receivers` list and `receiversAll` beyond the appended list is not modelled; `Single::forEach` in preprocessing is modelled as a sequential loop.
- The `GROOPS_RETHROW` of an exception in `writeResults` is modelled as the `complete == false` outcome of `Written`, keeping the files written before it.

## Findings

| source | as written | input that shows it | evidently intended | confidence | as-written member | corrected member |
|---|---|---|---|---|---|---|
| source/gnss/gnssParametrization/gnssParametrizationSignalBiases.cpp:81 | the receiver loop reads `fileNameInTransmitter(...)` although it is gated by `fileNameInReceiver` (line 70) and warns with the receiver file name (line 85) | `inputfileSignalBiasReceiver` configured as `bias_{station}`, `inputfileSignalBiasTransmitter` empty or `bias_{prn}`, and a selected, usable receiver `GRAZ` whose file `bias_GRAZ` exists: the transmitter template resolves to a name other than `bias_GRAZ` (the receiver loop's list does not set `{prn}`), so the receiver is disabled | read the receiver biases from `fileNameInReceiver(...)` | not executed | GnssParametrizationSignalBiases.SignalBiases.InitAsWritten, GnssParametrizationSignalBiases.ReceiverReadAsWrittenDisables, GnssParametrizationSignalBiases.ReceiverReadAsWrittenUnresolved | GnssParametrizationSignalBiases.SignalBiases.Init |
