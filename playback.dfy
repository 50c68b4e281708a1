/** The playback session manager as a state machine. The playback engine is
    reduced to handle tokens, and the teardown calls the program makes on
    them (`player.stop()`, `instance.release()`) are logged in order. The
    worker thread and the `root.after` hop become one `WorkerDone` event
    that the user-interface thread handles when it gets to it. */
module Playback {
  import opened Wrappers
  import opened Records

  /** An engine object (an instance or a media player), known by identity. */
  datatype Token = Token(id: nat)

  datatype Teardown = StopPlayer(player: Token) | ReleaseInstance(instance: Token)

  /** The fields of the application that playback reads and writes. */
  datatype State = State(
    generation: nat,
    instance: Option<Token>,
    player: Option<Token>,
    current: Option<nat>,
    statuses: map<nat, Status>,
    teardowns: seq<Teardown>)

  /** The state enforced by the generation fence: everything but the log. */
  predicate SameShared(a: State, b: State)
  {
    && a.generation == b.generation
    && a.instance == b.instance
    && a.player == b.player
    && a.current == b.current
    && a.statuses == b.statuses
  }

  predicate NoSession(st: State)
  {
    st.player.None? && st.instance.None? && st.current.None?
  }

  /** The teardown calls for the handles currently held. */
  function HeldTeardowns(st: State): seq<Teardown>
  {
    (if st.player.Some? then [StopPlayer(st.player.value)] else [])
    + (if st.instance.Some? then [ReleaseInstance(st.instance.value)] else [])
  }

  /** `stop_playback(update_status, increment_generation)`. */
  function Stop(st: State, updateStatus: bool, incrementGeneration: bool): State
  {
    State(
      if incrementGeneration then st.generation + 1 else st.generation,
      None,
      None,
      None,
      if updateStatus && st.current.Some? then st.statuses[st.current.value := Stopped] else st.statuses,
      st.teardowns + HeldTeardowns(st))
  }

  /** What `play_selected_stream` does once its checks pass: stop whatever is
      playing, then bump the generation again; the worker captures the
      result as its own generation. */
  function StartPlay(st: State): State
  {
    var stopped := Stop(st, true, true);
    stopped.(generation := stopped.generation + 1)
  }

  /** `update_state`, run on the user-interface thread when a worker has
      started `player` on `instance` for row `index` under generation `g`. */
  function Complete(st: State, index: nat, g: nat, instance: Token, player: Token): State
  {
    if g != st.generation then
      st.(teardowns := st.teardowns + [StopPlayer(player), ReleaseInstance(instance)])
    else
      st.(instance := Some(instance), player := Some(player), current := Some(index),
          statuses := st.statuses[index := Playing])
  }

  /** `stop_playback` ends any session, marks the row that was playing as
      stopped when asked to, leaves every other status alone, advances the
      generation exactly when asked to, and tears down exactly the handles it
      held, the player first. */
  lemma StopEndsSession(st: State, updateStatus: bool, incrementGeneration: bool)
    ensures var r := Stop(st, updateStatus, incrementGeneration);
      && NoSession(r)
      && (incrementGeneration ==> r.generation > st.generation)
      && (!incrementGeneration ==> r.generation == st.generation)
      && (updateStatus && st.current.Some? ==>
            st.current.value in r.statuses && r.statuses[st.current.value] == Stopped)
      && (forall k | Some(k) != st.current || !updateStatus ::
            (k in r.statuses <==> k in st.statuses) && (k in st.statuses ==> r.statuses[k] == st.statuses[k]))
      && |r.teardowns| == |st.teardowns| + |HeldTeardowns(st)|
      && r.teardowns[..|st.teardowns|] == st.teardowns
      && (st.player.Some? ==> r.teardowns[|st.teardowns|] == StopPlayer(st.player.value))
      && (st.instance.Some? ==> r.teardowns[|r.teardowns| - 1] == ReleaseInstance(st.instance.value))
  {
  }

  /** A completion whose generation is not the live one touches no shared
      state and stops and releases the handles it brought. */
  lemma StaleCompletionIsInert(st: State, index: nat, g: nat, instance: Token, player: Token)
    requires g != st.generation
    ensures var r := Complete(st, index, g, instance, player);
      && SameShared(r, st)
      && r.teardowns == st.teardowns + [StopPlayer(player), ReleaseInstance(instance)]
  {
  }

  /** A completion carrying the live generation commits its handles, makes
      its row the current one and marks it playing, tearing nothing down. */
  lemma LiveCompletionCommits(st: State, index: nat, g: nat, instance: Token, player: Token)
    requires g == st.generation
    ensures var r := Complete(st, index, g, instance, player);
      && r.generation == st.generation
      && r.instance == Some(instance) && r.player == Some(player) && r.current == Some(index)
      && index in r.statuses && r.statuses[index] == Playing
      && (forall k | k != index :: (k in r.statuses <==> k in st.statuses)
                                 && (k in st.statuses ==> r.statuses[k] == st.statuses[k]))
      && r.teardowns == st.teardowns
  {
  }

  // Event traces, handled one at a time by the user-interface thread.

  datatype Event =
    | PlayRequest(index: nat)
    | WorkerDone(index: nat, generation: nat, instance: Token, player: Token)
    | StopRequest

  /** Events that move the generation on: Play and Stop. */
  predicate Supersedes(e: Event)
  {
    e.PlayRequest? || e.StopRequest?
  }

  function Apply(st: State, e: Event): State
  {
    match e
    case PlayRequest(_) => StartPlay(st)
    case WorkerDone(i, g, inst, p) => Complete(st, i, g, inst, p)
    case StopRequest => Stop(st, true, true)
  }

  function Run(st: State, events: seq<Event>): State
  {
    if |events| == 0 then st
    else Apply(Run(st, events[..|events| - 1]), events[|events| - 1])
  }

  /** How far a trace moves the generation: two per Play (the inner stop and
      the increment after it), one per Stop. */
  function Bumps(events: seq<Event>): nat
  {
    if |events| == 0 then 0
    else
      Bumps(events[..|events| - 1])
      + match events[|events| - 1]
        case PlayRequest(_) => 2
        case StopRequest => 1
        case WorkerDone(_, _, _, _) => 0
  }

  lemma {:induction false} RunConcat(st: State, a: seq<Event>, b: seq<Event>)
    ensures Run(st, a + b) == Run(Run(st, a), b)
    decreases |b|
  {
    if |b| == 0 {
      assert a + b == a;
    } else {
      assert (a + b)[..|a + b| - 1] == a + b[..|b| - 1];
      RunConcat(st, a, b[..|b| - 1]);
    }
  }

  /** The generation never goes back: a trace advances it by exactly its
      bumps, whatever the completions in it carry. */
  lemma {:induction false} GenerationAdvancesByBumps(st: State, events: seq<Event>)
    ensures Run(st, events).generation == st.generation + Bumps(events)
  {
    if |events| > 0 {
      GenerationAdvancesByBumps(st, events[..|events| - 1]);
    }
  }

  /** A trace holding a Play or a Stop strictly advances the generation. */
  lemma {:induction false} SupersedingTraceAdvances(st: State, events: seq<Event>, k: nat)
    requires k < |events| && Supersedes(events[k])
    ensures Run(st, events).generation > st.generation
  {
    GenerationAdvancesByBumps(st, events);
    BumpsPositive(events, k);
  }

  lemma {:induction false} BumpsPositive(events: seq<Event>, k: nat)
    requires k < |events| && Supersedes(events[k])
    ensures Bumps(events) > 0
  {
    if k < |events| - 1 {
      BumpsPositive(events[..|events| - 1], k);
    }
  }

  /** The generation a Play captures is larger than every generation
      captured or live before it, so a later Play captures strictly more. */
  lemma CapturedGenerationsIncrease(st: State, events: seq<Event>, a: nat, b: nat)
    requires a < b < |events|
    requires events[a].PlayRequest? && events[b].PlayRequest?
    ensures Run(st, events[..a + 1]).generation < Run(st, events[..b + 1]).generation
  {
    var mid := events[a + 1..b + 1];
    assert events[..b + 1] == events[..a + 1] + mid;
    RunConcat(st, events[..a + 1], mid);
    assert mid[b - a - 1] == events[b];
    SupersedingTraceAdvances(Run(st, events[..a + 1]), mid, b - a - 1);
  }

  /** The generation fence: once a Play has captured generation `g`, any later
      Play or Stop makes the completion carrying `g` stale, whenever it
      arrives and whatever other completions come in between: it changes no
      shared state and tears down the two handles it brought. */
  lemma Fenced(st: State, before: seq<Event>, index: nat, after: seq<Event>, k: nat,
               instance: Token, player: Token)
    requires k < |after| && Supersedes(after[k])
    ensures
      var started := Apply(Run(st, before), PlayRequest(index));
      var pending := Run(started, after);
      var done := Apply(pending, WorkerDone(index, started.generation, instance, player));
      && SameShared(done, pending)
      && done.teardowns == pending.teardowns + [StopPlayer(player), ReleaseInstance(instance)]
  {
    var started := Apply(Run(st, before), PlayRequest(index));
    SupersedingTraceAdvances(started, after, k);
  }

  /** Without a later Play or Stop the completion is live and commits. */
  lemma UnfencedCommits(st: State, before: seq<Event>, index: nat, after: seq<Event>,
                        instance: Token, player: Token)
    requires forall k | 0 <= k < |after| :: !Supersedes(after[k])
    ensures
      var started := Apply(Run(st, before), PlayRequest(index));
      var done := Apply(Run(started, after), WorkerDone(index, started.generation, instance, player));
      done.player == Some(player) && done.instance == Some(instance) && done.current == Some(index)
  {
    var started := Apply(Run(st, before), PlayRequest(index));
    GenerationAdvancesByBumps(started, after);
    NoBumps(after);
  }

  lemma {:induction false} NoBumps(events: seq<Event>)
    requires forall k | 0 <= k < |events| :: !Supersedes(events[k])
    ensures Bumps(events) == 0
  {
    if |events| > 0 {
      NoBumps(events[..|events| - 1]);
    }
  }

  // At most one session: each worker reports once, under its own generation.

  /** No two completions in the trace carry the same generation. */
  predicate DistinctCompletions(events: seq<Event>)
  {
    forall a, b | 0 <= a < b < |events| && events[a].WorkerDone? && events[b].WorkerDone? ::
      events[a].generation != events[b].generation
  }

  /** Event `k` of the trace is the completion that committed the session
      `st` holds: it arrived carrying the generation live at that moment, and
      `st` holds its handles and row under that same generation. */
  predicate CommittedBy(st0: State, events: seq<Event>, st: State, k: int)
  {
    && 0 <= k < |events| && events[k].WorkerDone?
    && events[k].generation == Run(st0, events[..k]).generation
    && st.generation == events[k].generation
    && st.player == Some(events[k].player)
    && st.instance == Some(events[k].instance)
    && st.current == Some(events[k].index)
  }

  /** After running `events` from `st0`, the player and instance are held
      together, and a held session was committed by a live completion of
      the trace. */
  predicate SessionAccounted(st0: State, events: seq<Event>)
  {
    var st := Run(st0, events);
    && (st.player.Some? <==> st.instance.Some?)
    && (st.player.Some? ==> exists k | 0 <= k < |events| :: CommittedBy(st0, events, st, k))
  }

  lemma {:induction false} SessionAccountedAlong(st: State, events: seq<Event>)
    requires st.player.None? && st.instance.None?
    ensures SessionAccounted(st, events)
  {
    if |events| > 0 {
      var n := |events| - 1;
      var prefix := events[..n];
      SessionAccountedAlong(st, prefix);
      var p := Run(st, prefix);
      var r := Run(st, events);
      assert r == Apply(p, events[n]);
      match events[n]
      case WorkerDone(i, g, inst, pl) =>
        if g == p.generation {
          assert CommittedBy(st, events, r, n);
        } else if p.player.Some? {
          var j :| CommittedBy(st, prefix, p, j);
          CommittedCarriesOver(st, events, p, r, j);
        }
      case PlayRequest(_) =>
      case StopRequest =>
    }
  }

  /** A stale completion at the end of the trace leaves a committed session
      committed by the same event. */
  lemma CommittedCarriesOver(st0: State, events: seq<Event>, p: State, r: State, j: int)
    requires |events| > 0
    requires CommittedBy(st0, events[..|events| - 1], p, j)
    requires SameShared(r, p)
    ensures CommittedBy(st0, events, r, j)
  {
    var prefix := events[..|events| - 1];
    assert events[j] == prefix[j];
    assert events[..j] == prefix[..j];
  }

  /** Starting with no session, when every worker reports once a live
      completion always finds no session held: no committed handle is ever
      overwritten without being torn down first. */
  lemma LiveCompletionFindsNoSession(st: State, events: seq<Event>, k: nat)
    requires st.player.None? && st.instance.None?
    requires DistinctCompletions(events)
    requires k < |events| && events[k].WorkerDone?
    requires events[k].generation == Run(st, events[..k]).generation
    ensures Run(st, events[..k]).player.None? && Run(st, events[..k]).instance.None?
  {
    var prefix := events[..k];
    SessionAccountedAlong(st, prefix);
    forall j | 0 <= j < |prefix| && prefix[j].WorkerDone?
      ensures prefix[j].generation != events[k].generation
    {
      assert events[j] == prefix[j];
    }
  }

  lemma RunTwo(st: State, x: Event, y: Event)
    ensures Run(st, [x, y]) == Apply(Apply(st, x), y)
  {
    assert [x, y][..1] == [x];
    assert [x][..0] == [];
    assert Run(st, [x]) == Apply(Run(st, []), x);
  }

  /** Play on `a` and then on `b`: whichever order the two workers report in,
      only `b`'s session is committed, and `a`'s handles are stopped and
      released. */
  lemma SecondPlayWins(st: State, a: nat, b: nat, instA: Token, playerA: Token, instB: Token, playerB: Token)
    ensures
      var s2 := Apply(Apply(st, PlayRequest(a)), PlayRequest(b));
      var doneA := WorkerDone(a, Apply(st, PlayRequest(a)).generation, instA, playerA);
      var doneB := WorkerDone(b, s2.generation, instB, playerB);
      var ab := Run(s2, [doneA, doneB]);
      var ba := Run(s2, [doneB, doneA]);
      && ab.current == Some(b) && ab.player == Some(playerB) && ab.instance == Some(instB)
      && ba.current == Some(b) && ba.player == Some(playerB) && ba.instance == Some(instB)
      && ab.teardowns == s2.teardowns + [StopPlayer(playerA), ReleaseInstance(instA)]
      && ba.teardowns == s2.teardowns + [StopPlayer(playerA), ReleaseInstance(instA)]
  {
    var s2 := Apply(Apply(st, PlayRequest(a)), PlayRequest(b));
    var doneA := WorkerDone(a, Apply(st, PlayRequest(a)).generation, instA, playerA);
    var doneB := WorkerDone(b, s2.generation, instB, playerB);
    RunTwo(s2, doneA, doneB);
    RunTwo(s2, doneB, doneA);
  }
}
