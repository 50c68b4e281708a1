/** The application object: the record list, the status map, the sort and
    batch flags and the playback fields, changed in place by the handlers the
    buttons and the worker callbacks run. Widgets, dialogs and message boxes
    are left out; where a handler's outcome was shown in a dialog, the
    method returns it instead. */
module App {
  import opened Wrappers
  import opened Text
  import opened Records
  import opened Validator
  import opened SiiCodec
  import opened Store
  import opened Batch
  import opened Playback

  /** How `play_selected_stream` ended. */
  datatype PlayOutcome =
    | NoSelection
    | MissingUrl
    | EngineUnavailable
    | Launched(index: nat, url: string, generation: nat)

  /** How the "Save" button of the stream dialog ended. `RowGone` is the
      `IndexError` raised when the edited row no longer exists, because rows
      were deleted or a shorter file loaded while the dialog stayed open. */
  datatype SaveOutcome = Rejected(message: string) | RowGone | Saved

  /** How `save_file` ended before the file dialog: the lines to write, or
      the warning it showed instead. `position` counts from 1. */
  datatype FileOutcome =
    | NoData
    | InvalidStream(position: nat, message: string)
    | Written(lines: seq<string>)

  /** How `test_all_streams` ended. */
  datatype TestOutcome = AlreadyRunning | NothingToTest | Started

  /** Every record passes the validator. */
  predicate AllValid(rows: seq<Stream>)
  {
    forall k | 0 <= k < |rows| :: Validate(rows[k]) == None
  }

  /** Every status belongs to an existing row. */
  predicate KeysBelow(m: map<nat, Status>, n: nat)
  {
    forall k | k in m :: k < n
  }

  /** `sort_by_column`: the same column flips the direction, a new column
      sorts ascending. */
  function SortToggle(sortBy: Option<string>, sortReverse: bool, column: string): (r: (Option<string>, bool))
    ensures r.0 == Some(column)
    ensures sortBy == Some(column) ==> r.1 == !sortReverse
    ensures sortBy != Some(column) ==> !r.1
  {
    if sortBy == Some(column) then (sortBy, !sortReverse) else (Some(column), false)
  }

  /** Clicking the same heading twice restores the direction; once a
      heading is clicked, two more clicks on it leave the state as it was. */
  lemma SortToggleTwice(sortBy: Option<string>, sortReverse: bool, column: string)
    ensures var once := SortToggle(sortBy, sortReverse, column);
      var twice := SortToggle(once.0, once.1, column);
      var thrice := SortToggle(twice.0, twice.1, column);
      && twice.0 == Some(column) && twice.1 == !once.1
      && thrice == once
  {
  }

  /** The validation pass of `save_file`, over the rows in order: the
      1-based position and message of the first row `check` rejects, if any. */
  method FirstRejected(rows: seq<Stream>, check: Stream -> Option<string>) returns (rejected: Option<(nat, string)>)
    ensures rejected.None? <==> forall k | 0 <= k < |rows| :: check(rows[k]) == None
    ensures rejected.Some? ==>
      && 1 <= rejected.value.0 <= |rows|
      && check(rows[rejected.value.0 - 1]) == Some(rejected.value.1)
      && forall k | 0 <= k < rejected.value.0 - 1 :: check(rows[k]) == None
  {
    for i := 0 to |rows|
      invariant forall k | 0 <= k < i :: check(rows[k]) == None
    {
      var error := check(rows[i]);
      if error.Some? {
        return Some((i + 1, error.value));
      }
    }
    return None;
  }

  class StreamManagerApp {
    var streams: seq<Stream>
    var statuses: map<nat, Status>
    var sortBy: Option<string>
    var sortReverse: bool
    var isTestingAll: bool
    /** Whether the playback engine's module has been loaded. */
    var vlcLoaded: bool
    var vlcInstance: Option<Token>
    var player: Option<Token>
    var currentlyPlayingIndex: Option<nat>
    var playbackGeneration: nat
    /** The `stop()` and `release()` calls made on engine handles, in order. */
    ghost var teardowns: seq<Teardown>

    /** The fields playback reads and writes, as a value of the pure model. */
    ghost function PlaybackView(): State
      reads this
    {
      State(playbackGeneration, vlcInstance, player, currentlyPlayingIndex, statuses, teardowns)
    }

    /** A session is held whole or not at all: the instance, the player and
        the row playing are set and cleared together. */
    predicate SessionConsistent()
      reads this
    {
      && (player.Some? <==> vlcInstance.Some?)
      && (player.Some? <==> currentlyPlayingIndex.Some?)
    }

    constructor ()
      ensures streams == [] && statuses == map[]
      ensures sortBy == None && !sortReverse && !isTestingAll && !vlcLoaded
      ensures vlcInstance == None && player == None && currentlyPlayingIndex == None
      ensures playbackGeneration == 0 && teardowns == []
      ensures SessionConsistent()
    {
      streams := [];
      statuses := map[];
      sortBy := None;
      sortReverse := false;
      isTestingAll := false;
      vlcLoaded := false;
      vlcInstance := None;
      player := None;
      currentlyPlayingIndex := None;
      playbackGeneration := 0;
      teardowns := [];
    }

    /** The reading loop of `load_file` over the lines of the chosen file:
        the records are those the lines define, in order, and the status
        map is emptied. */
    method LoadLines(lines: seq<string>)
      modifies this
      ensures streams == ParseLines(lines)
      ensures statuses == map[]
      ensures sortBy == old(sortBy) && sortReverse == old(sortReverse) && isTestingAll == old(isTestingAll)
      ensures vlcLoaded == old(vlcLoaded)
      ensures PlaybackView() == old(PlaybackView()).(statuses := map[])
    {
      streams := [];
      for i := 0 to |lines|
        invariant streams == ParseLines(lines[..i])
        modifies this`streams
      {
        assert lines[..i + 1][..i] == lines[..i];
        match ParseLine(lines[i])
        case Parsed(s) =>
          streams := streams + [s];
        case _ =>
      }
      assert lines[..|lines|] == lines;
      statuses := map[];
    }

    /** `filtered_streams`: the rows every non-empty filter occurs in,
        ignoring case, kept with their positions and in list order. */
    method FilteredStreams(nameFilter: string, genreFilter: string, languageFilter: string)
      returns (results: seq<(nat, Stream)>)
      ensures results == Matching(streams, nameFilter, genreFilter, languageFilter)
      ensures forall j | 0 <= j < |results| ::
        results[j].0 < |streams| && results[j].1 == streams[results[j].0]
        && Keeps(results[j].1, nameFilter, genreFilter, languageFilter)
      ensures forall i, j | 0 <= i < j < |results| :: results[i].0 < results[j].0
      ensures forall k | 0 <= k < |streams| && Keeps(streams[k], nameFilter, genreFilter, languageFilter) ::
        exists j :: 0 <= j < |results| && results[j].0 == k
    {
      var nf := Lower(nameFilter);
      var gf := Lower(genreFilter);
      var lf := Lower(languageFilter);
      results := [];
      for idx := 0 to |streams|
        invariant results == Matching(streams[..idx], nameFilter, genreFilter, languageFilter)
      {
        assert streams[..idx + 1][..idx] == streams[..idx];
        var s := streams[idx];
        if nf != "" && !Contains(Lower(s.name), nf) {
          continue;
        }
        if gf != "" && !Contains(Lower(s.genre), gf) {
          continue;
        }
        if lf != "" && !Contains(Lower(s.language), lf) {
          continue;
        }
        results := results + [(idx, s)];
      }
      assert streams[..|streams|] == streams;
      MatchingIsFilter(streams, nameFilter, genreFilter, languageFilter);
    }

    /** `sort_by_column`. */
    method SortByColumn(column: string)
      modifies this
      ensures (sortBy, sortReverse) == SortToggle(old(sortBy), old(sortReverse), column)
      ensures streams == old(streams) && isTestingAll == old(isTestingAll) && vlcLoaded == old(vlcLoaded)
      ensures PlaybackView() == old(PlaybackView())
    {
      if sortBy == Some(column) {
        sortReverse := !sortReverse;
      } else {
        sortBy := Some(column);
        sortReverse := false;
      }
    }

    /** `stop_playback(update_status, increment_generation)`. */
    method StopPlayback(updateStatus: bool, incrementGeneration: bool)
      modifies this
      ensures PlaybackView() == Stop(old(PlaybackView()), updateStatus, incrementGeneration)
      ensures NoSession(PlaybackView()) && SessionConsistent()
      ensures streams == old(streams) && sortBy == old(sortBy) && sortReverse == old(sortReverse)
      ensures isTestingAll == old(isTestingAll) && vlcLoaded == old(vlcLoaded)
    {
      if incrementGeneration {
        playbackGeneration := playbackGeneration + 1;
      }
      // `player.stop()` when a player is held, then `release()` when an
      // instance is held.
      teardowns := teardowns + HeldTeardowns(PlaybackView());
      if updateStatus && currentlyPlayingIndex.Some? {
        statuses := statuses[currentlyPlayingIndex.value := Stopped];
      }
      currentlyPlayingIndex := None;
      player := None;
      vlcInstance := None;
    }

    /** `play_selected_stream` for the selected row, when there is one.
        `engineFound` says whether the engine's module can be loaded, which
        the program asks only while it is not loaded yet. On launch the old
        session is stopped, the generation advanced once more and the new
        generation handed to the worker. */
    method PlaySelectedStream(selection: Option<nat>, engineFound: bool) returns (outcome: PlayOutcome)
      requires selection.Some? ==> selection.value < |streams|
      modifies this
      ensures streams == old(streams) && sortBy == old(sortBy) && sortReverse == old(sortReverse)
      ensures isTestingAll == old(isTestingAll)
      ensures selection.None? <==> outcome == NoSelection
      ensures outcome == MissingUrl <==> selection.Some? && IsBlank(streams[selection.value].url)
      ensures outcome == EngineUnavailable <==>
        selection.Some? && !IsBlank(streams[selection.value].url) && !old(vlcLoaded) && !engineFound
      ensures outcome.Launched? ==>
        && selection == Some(outcome.index)
        && outcome.url == streams[outcome.index].url
        && PlaybackView() == StartPlay(old(PlaybackView()))
        && outcome.generation == playbackGeneration
        && vlcLoaded
      ensures !outcome.Launched? ==> PlaybackView() == old(PlaybackView())
      ensures !outcome.Launched? ==> vlcLoaded == old(vlcLoaded)
      ensures outcome.Launched? ==> SessionConsistent()
      ensures !outcome.Launched? ==> SessionConsistent() == old(SessionConsistent())
    {
      if selection.None? {
        return NoSelection;
      }
      var index := selection.value;
      var url := streams[index].url;
      StripEmptyIffBlank(url);
      if Strip(url) == "" {
        return MissingUrl;
      }
      if !vlcLoaded {
        if !engineFound {
          return EngineUnavailable;
        }
        vlcLoaded := true;
      }
      StopPlayback(true, true);
      playbackGeneration := playbackGeneration + 1;
      outcome := Launched(index, url, playbackGeneration);
    }

    /** `update_state`, run on the user-interface thread once the worker
        launched for row `index` under `generation` has started its player. */
    method UpdateState(index: nat, generation: nat, workerInstance: Token, workerPlayer: Token)
      modifies this
      ensures PlaybackView() == Complete(old(PlaybackView()), index, generation, workerInstance, workerPlayer)
      ensures generation != old(playbackGeneration) ==>
        SameShared(PlaybackView(), old(PlaybackView()))
        && teardowns == old(teardowns) + [StopPlayer(workerPlayer), ReleaseInstance(workerInstance)]
      ensures generation == old(playbackGeneration) ==>
        player == Some(workerPlayer) && vlcInstance == Some(workerInstance)
        && currentlyPlayingIndex == Some(index) && index in statuses && statuses[index] == Playing
      ensures generation == old(playbackGeneration) ==> SessionConsistent()
      ensures generation != old(playbackGeneration) ==> SessionConsistent() == old(SessionConsistent())
      ensures streams == old(streams) && sortBy == old(sortBy) && sortReverse == old(sortReverse)
      ensures isTestingAll == old(isTestingAll) && vlcLoaded == old(vlcLoaded)
    {
      if generation != playbackGeneration {
        teardowns := teardowns + [StopPlayer(workerPlayer)];
        teardowns := teardowns + [ReleaseInstance(workerInstance)];
        return;
      }
      vlcInstance := Some(workerInstance);
      player := Some(workerPlayer);
      currentlyPlayingIndex := Some(index);
      statuses := statuses[index := Playing];
    }

    /** `show_stream_check_result`: the row checked gets the status of the
        verdict `check_stream` returned. */
    method ShowStreamCheckResult(index: nat, isWorking: bool)
      modifies this
      ensures statuses == old(statuses)[index := StatusFor(isWorking)]
      ensures streams == old(streams) && sortBy == old(sortBy) && sortReverse == old(sortReverse)
      ensures isTestingAll == old(isTestingAll) && vlcLoaded == old(vlcLoaded)
      ensures PlaybackView() == old(PlaybackView()).(statuses := statuses)
    {
      statuses := statuses[index := StatusFor(isWorking)];
    }

    /** The "Save" button of the stream dialog: the entered stream replaces
        row `index` when the dialog edits one and is appended otherwise, and
        only when it passes the validator; editing a row that is gone raises
        and changes nothing. */
    method SaveStream(index: Option<nat>, entered: Stream) returns (outcome: SaveOutcome)
      modifies this
      ensures outcome.Rejected? <==> Validate(entered).Some?
      ensures outcome.Rejected? ==> Validate(entered) == Some(outcome.message)
      ensures outcome == RowGone <==>
        Validate(entered) == None && index.Some? && index.value >= |old(streams)|
      ensures !outcome.Saved? ==> streams == old(streams)
      ensures outcome == Saved && index.Some? ==> streams == old(streams)[index.value := entered]
      ensures outcome == Saved && index.None? ==> streams == old(streams) + [entered]
      ensures old(AllValid(streams)) ==> AllValid(streams)
      ensures statuses == old(statuses) && sortBy == old(sortBy) && sortReverse == old(sortReverse)
      ensures isTestingAll == old(isTestingAll) && vlcLoaded == old(vlcLoaded)
      ensures PlaybackView() == old(PlaybackView())
    {
      var error := Validate(entered);
      if error.Some? {
        return Rejected(error.value);
      }
      if index.Some? {
        if index.value >= |streams| {
          return RowGone;
        }
        streams := streams[index.value := entered];
      } else {
        streams := streams + [entered];
      }
      outcome := Saved;
    }

    /** `delete_stream` on the selected row: the row is removed, its status
        dropped and the statuses above it moved down one key. The row that
        is playing is not renumbered. */
    method DeleteStream(selection: Option<nat>)
      requires selection.Some? ==> selection.value < |streams|
      modifies this
      ensures selection.None? ==> streams == old(streams) && statuses == old(statuses)
      ensures selection.Some? ==>
        streams == RemoveAt(old(streams), selection.value)
        && statuses == ShiftDown(old(statuses), selection.value)
      ensures old(KeysBelow(statuses, |streams|)) ==> KeysBelow(statuses, |streams|)
      ensures old(AllValid(streams)) ==> AllValid(streams)
      ensures currentlyPlayingIndex == old(currentlyPlayingIndex)
      ensures sortBy == old(sortBy) && sortReverse == old(sortReverse)
      ensures isTestingAll == old(isTestingAll) && vlcLoaded == old(vlcLoaded)
      ensures PlaybackView() == old(PlaybackView()).(statuses := statuses)
    {
      if selection.None? {
        return;
      }
      var index := selection.value;
      streams := RemoveAt(streams, index);
      statuses := ShiftDown(statuses, index);
    }

    /** `save_file` up to the file dialog: refused with no records, refused
        at the first record the validator rejects, and otherwise the lines
        the writer produces. */
    method SaveFile() returns (outcome: FileOutcome)
      ensures outcome == NoData <==> |streams| == 0
      ensures outcome.InvalidStream? ==>
        && 1 <= outcome.position <= |streams|
        && Validate(streams[outcome.position - 1]) == Some(outcome.message)
        && forall k | 0 <= k < outcome.position - 1 :: Validate(streams[k]) == None
      ensures outcome.Written? <==> |streams| > 0 && AllValid(streams)
      ensures outcome.Written? ==> outcome.lines == Serialize(streams)
    {
      if |streams| == 0 {
        return NoData;
      }
      var rejected := FirstRejected(streams, Validate);
      if rejected.Some? {
        var (position, message) := rejected.value;
        return InvalidStream(position, message);
      }
      var lines := WriteLines();
      return Written(lines);
    }

    /** The writing block of `save_file`: the header with the record count,
        one line per record, and the closing lines. */
    method WriteLines() returns (lines: seq<string>)
      ensures lines == Serialize(streams)
    {
      lines := HeaderLines + [CountLine(|streams|)];
      for i := 0 to |streams|
        invariant lines == HeaderLines + [CountLine(|streams|)] + RecordLines(streams[..i])
      {
        assert streams[..i + 1][..i] == streams[..i];
        lines := lines + [RecordLine(i, streams[i])];
      }
      assert streams[..|streams|] == streams;
      lines := lines + FooterLines;
    }

    /** `test_all_streams`: refused while a batch runs or with no records,
        otherwise the flag is raised and the worker starts. */
    method TestAllStreams() returns (outcome: TestOutcome)
      modifies this
      ensures old(isTestingAll) ==> outcome == AlreadyRunning && isTestingAll
      ensures outcome == NothingToTest <==> !old(isTestingAll) && |streams| == 0
      ensures outcome == Started <==> !old(isTestingAll) && |streams| > 0
      ensures isTestingAll == (old(isTestingAll) || outcome == Started)
      ensures streams == old(streams) && sortBy == old(sortBy) && sortReverse == old(sortReverse)
      ensures vlcLoaded == old(vlcLoaded) && PlaybackView() == old(PlaybackView())
    {
      if isTestingAll {
        return AlreadyRunning;
      }
      if |streams| == 0 {
        return NothingToTest;
      }
      isTestingAll := true;
      outcome := Started;
    }

    /** `test_all_thread` with the outcome of each record's probe given in
        record order: every record's status is set from its own probe, other
        statuses are kept, and the updates it posts are the per-record ones
        followed by the call to `finish_testing`. */
    method TestAllThread(probes: seq<Probe>) returns (posted: seq<Callback>)
      requires |probes| == |streams|
      modifies this
      ensures posted == Reports(probes) + [Callback.FinishTesting]
      ensures forall k | 0 <= k < |probes| :: k in statuses && statuses[k] == Verdict(probes[k])
      ensures forall k | k in old(statuses) && k >= |probes| :: k in statuses && statuses[k] == old(statuses)[k]
      ensures forall k | k in statuses :: k < |probes| || k in old(statuses)
      ensures streams == old(streams) && sortBy == old(sortBy) && sortReverse == old(sortReverse)
      ensures isTestingAll == old(isTestingAll) && vlcLoaded == old(vlcLoaded)
      ensures PlaybackView() == old(PlaybackView()).(statuses := statuses)
    {
      posted := [];
      for idx := 0 to |streams|
        invariant posted == Reports(probes[..idx])
        invariant forall k | 0 <= k < idx :: k in statuses && statuses[k] == Verdict(probes[k])
        invariant forall k | k in old(statuses) && k >= idx :: k in statuses && statuses[k] == old(statuses)[k]
        invariant forall k | k in statuses :: k < idx || k in old(statuses)
        modifies this`statuses
      {
        assert probes[..idx + 1][..idx] == probes[..idx];
        var isWorking := ProbeSucceeded(probes[idx]);
        var status := StatusFor(isWorking);
        statuses := statuses[idx := status];
        posted := posted + [ShowStatus(idx, status), SetProgress(idx + 1)];
      }
      assert probes[..|streams|] == probes;
      posted := posted + [Callback.FinishTesting];
    }

    /** `finish_testing`: the batch flag is lowered and nothing else changes. */
    method FinishTesting()
      modifies this
      ensures !isTestingAll
      ensures streams == old(streams) && sortBy == old(sortBy) && sortReverse == old(sortReverse)
      ensures vlcLoaded == old(vlcLoaded) && PlaybackView() == old(PlaybackView())
    {
      isTestingAll := false;
    }
  }
}
