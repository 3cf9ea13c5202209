/** The game server's end of match: players, their results, and when the results screen is scheduled. */
module EndOfMatch {
  import opened Common

  type PlayerId = uint32

  const HOST: PlayerId := 0

  datatype Context = Won | Died | Disconnected

  datatype Result = Result(name: string, points: int, time: real, score: int, context: Context)

  datatype Phase = NoGame | LookingForHost | Searching | Started | ResultsScreen

  /**
   * Players are mapped to whether their object is there. `scheduled` counts the delayed checks that
   * will end the game, `finishes` how often it has been ended.
   */
  datatype State = State(
    phase: Phase,
    players: map<PlayerId, bool>,
    connected: seq<PlayerId>,
    results: map<PlayerId, Result>,
    scheduled: nat,
    finishes: nat)

  datatype Event =
    | OpensLobby
    | Joins(id: PlayerId)
    | Leaves(id: PlayerId)
    | StartsGame
    | Moves(id: PlayerId)
    | ResultArrives(id: PlayerId, result: Result)
    | OwnResult(result: Result)
    | DelayEnds

  // ---------- steps ----------

  function Without(s: seq<PlayerId>, id: PlayerId): seq<PlayerId> {
    if s == [] then [] else if s[0] == id then s[1..] else [s[0]] + Without(s[1..], id)
  }

  const NO_GAME := State(NoGame, map[], [], map[], 0, 0)

  function AfterJoin(s: State, id: PlayerId): State {
    if id in s.players then s else s.(connected := s.connected + [id], players := s.players[id := false])
  }

  function AfterLeave(s: State, id: PlayerId): State {
    if id !in s.players then s
    else
      s.(connected := Without(s.connected, id),
         players := if s.phase == Started then s.players[id := false] else s.players - {id})
  }

  function AllPresent(ids: set<PlayerId>): map<PlayerId, bool> {
    map id | id in ids :: true
  }

  function AfterStart(s: State): State {
    s.(phase := Started, players := AllPresent(s.players.Keys)[HOST := true])
  }

  /** Position data: a player not seen before is added, one whose object is gone is left alone. */
  function AfterMove(s: State, id: PlayerId): State {
    if s.phase == Started && id !in s.players then s.(players := s.players[id := true]) else s
  }

  predicate Finished(s: State) {
    |s.players| == |s.results|
  }

  function AfterCheck(s: State): State {
    if Finished(s) then s.(scheduled := s.scheduled + 1) else s
  }

  /** Handling a result fails when the player is not known, or has won or died without an object. */
  predicate CanHandle(s: State, id: PlayerId, r: Result) {
    id in s.players && (r.context.Disconnected? || s.players[id])
  }

  /** A second result for a player is refused; one that cannot be handled stays stored. */
  function AfterResult(s: State, id: PlayerId, r: Result): State {
    if s.phase != Started || id in s.results then s
    else
      var stored := s.(results := s.results[id := r]);
      if CanHandle(s, id, r) then AfterCheck(stored.(players := s.players[id := false])) else stored
  }

  function AfterOwnResult(s: State, r: Result): State {
    if HOST in s.results then s else AfterCheck(s.(results := s.results[HOST := r]))
  }

  function AfterDelay(s: State): State {
    if s.scheduled == 0 then s
    else s.(scheduled := s.scheduled - 1, finishes := s.finishes + 1, phase := ResultsScreen)
  }

  function AfterEvent(s: State, e: Event): State {
    match e
    case OpensLobby => s.(phase := Searching)
    case Joins(id) => AfterJoin(s, id)
    case Leaves(id) => AfterLeave(s, id)
    case StartsGame => AfterStart(s)
    case Moves(id) => AfterMove(s, id)
    case ResultArrives(id, r) => AfterResult(s, id, r)
    case OwnResult(r) => AfterOwnResult(s, r)
    case DelayEnds => AfterDelay(s)
  }

  class Server {
    var phase: Phase
    var players: map<PlayerId, bool>
    var connected: seq<PlayerId>
    var results: map<PlayerId, Result>
    var scheduled: nat
    var finishes: nat

    function Now(): State
      reads this
    {
      State(phase, players, connected, results, scheduled, finishes)
    }

    constructor ()
      ensures Now() == NO_GAME
    {
      phase, players, connected, results, scheduled, finishes := NoGame, map[], [], map[], 0, 0;
    }

    /** The server listens and waits for players. */
    method StartServer()
      modifies this`phase
      ensures Now() == old(Now()).(phase := Searching)
    {
      phase := Searching;
    }

    method HandlePlayerJoining(id: PlayerId)
      modifies this
      ensures Now() == AfterJoin(old(Now()), id)
    {
      if id !in players {
        connected := connected + [id];
        players := players[id := false];
      }
    }

    method HandlePlayerLeaving(id: PlayerId)
      modifies this
      ensures Now() == AfterLeave(old(Now()), id)
    {
      var inGame := phase == Started;
      if id in players {
        connected := Without(connected, id);
        players := players[id := false];
        if !inGame {
          players := players - {id};
        }
      }
    }

    /** The host starts the game; fails at the end if the host is a player already. */
    method HandleRegisterPlayer() returns (ok: bool)
      modifies this
      ensures Now() == AfterStart(old(Now())) && (ok <==> HOST !in old(players))
    {
      phase := Started;
      ghost var keys := players.Keys;
      ok := HOST !in players;
      var left := players.Keys;
      while left != {}
        invariant players.Keys == keys && left <= keys
        invariant forall id :: id in keys - left ==> players[id]
        invariant phase == Started && connected == old(connected) && results == old(results)
        invariant scheduled == old(scheduled) && finishes == old(finishes)
        decreases |left|
      {
        var id :| id in left;
        players := players[id := true];
        left := left - {id};
      }
      assert players == AllPresent(keys);
      if ok {
        players := players[HOST := true];
      }
    }

    method HandlePlayerData(id: PlayerId)
      modifies this
      ensures Now() == AfterMove(old(Now()), id)
    {
      if phase == Started && id !in players {
        players := players[id := true];
      }
    }

    method CheckIfGameFinished() returns (finished: bool)
      ensures finished == Finished(Now())
    {
      finished := |players| == |results|;
    }

    /** Nothing ever sets the flag that would keep a check from being made, so there is none here. */
    method HandleGameEndCheck()
      modifies this`scheduled
      ensures Now() == AfterCheck(old(Now()))
    {
      var finished := CheckIfGameFinished();
      if finished {
        scheduled := scheduled + 1;
      }
    }

    /** A result from a client; messages are read only while the game is on. */
    method HandleReceivePlayerResult(id: PlayerId, result: Result) returns (ok: bool)
      modifies this
      ensures Now() == AfterResult(old(Now()), id, result)
      ensures ok <==> old(phase == Started && id !in results && CanHandle(Now(), id, result))
    {
      if phase != Started || id in results {
        return false;
      }
      results := results[id := result];
      if id !in players {
        return false;
      }
      if !result.context.Disconnected? && !players[id] {
        return false;
      }
      players := players[id := false];
      HandleGameEndCheck();
      ok := true;
    }

    method HandleSendPlayerResults(result: Result) returns (ok: bool)
      modifies this
      ensures Now() == AfterOwnResult(old(Now()), result) && (ok <==> HOST !in old(results))
    {
      if HOST in results {
        return false;
      }
      results := results[HOST := result];
      HandleGameEndCheck();
      ok := true;
    }

    method DelayedEndGameCheck()
      modifies this
      ensures Now() == AfterDelay(old(Now()))
    {
      if scheduled > 0 {
        scheduled := scheduled - 1;
        phase := ResultsScreen;
        finishes := finishes + 1;
      }
    }
  }

  // ---------- runs with fixed players ----------

  /** Events that leave the set of players as it is. Results may name anyone. */
  predicate Fixed(s: State, e: Event) {
    match e
    case OpensLobby => false
    case Joins(id) => id in s.players
    case Leaves(id) => id in s.players ==> s.phase == Started
    case StartsGame => false
    case Moves(id) => s.phase == Started ==> id in s.players
    case ResultArrives(_, _) => true
    case OwnResult(_) => true
    case DelayEnds => true
  }

  function AfterAll(start: State, history: seq<Event>): State {
    if history == [] then start else AfterEvent(AfterAll(start, history[..|history| - 1]), history[|history| - 1])
  }

  predicate AllFixed(start: State, history: seq<Event>) {
    history == [] ||
    (var before := history[..|history| - 1];
     AllFixed(start, before) && Fixed(AfterAll(start, before), history[|history| - 1]))
  }

  /** The game has just begun. */
  predicate JustStarted(s: State) {
    s.phase == Started && s.results == map[] && s.scheduled == 0 && s.finishes == 0 && HOST in s.players
  }

  predicate Complete(s: State) {
    s.players.Keys == s.results.Keys
  }

  /** There are as many results as players, whoever they are for. */
  predicate Full(s: State) {
    |s.results| >= |s.players|
  }

  /** The player whose result the event stores, if it stores one. */
  function Stored(s: State, e: Event): Option<PlayerId> {
    match e
    case ResultArrives(id, _) => if s.phase == Started && id !in s.results then Some(id) else None
    case OwnResult(_) => if HOST !in s.results then Some(HOST) else None
    case _ => None
  }

  predicate Handled(s: State, e: Event) {
    match e
    case ResultArrives(id, r) => CanHandle(s, id, r)
    case _ => true
  }

  /** The step that stores as many results as there are players, and handles the last of them. */
  predicate EndsMatch(s: State, e: Event) {
    Stored(s, e).Some? && Handled(s, e) && Finished(AfterEvent(s, e))
  }

  ghost predicate Sound(s: State) {
    s.scheduled + s.finishes <= 1 && (s.scheduled + s.finishes == 1 ==> Full(s))
  }

  lemma FixedKeepsPlayers(s: State, e: Event)
    requires Fixed(s, e)
    ensures AfterEvent(s, e).players.Keys == s.players.Keys
  {
    match e
    case Leaves(id) =>
    case ResultArrives(id, r) =>
    case _ =>
  }

  lemma ArrivedKeys(s: State, id: PlayerId, r: Result)
    requires s.phase == Started && id !in s.results
    ensures AfterResult(s, id, r).results.Keys == s.results.Keys + {id}
  {
  }

  lemma OwnKeys(s: State, r: Result)
    requires HOST !in s.results
    ensures AfterOwnResult(s, r).results.Keys == s.results.Keys + {HOST}
  {
  }

  lemma ResultKeys(s: State, e: Event)
    ensures Stored(s, e).None? ==> AfterEvent(s, e).results == s.results
    ensures Stored(s, e).Some? ==> AfterEvent(s, e).results.Keys == s.results.Keys + {Stored(s, e).value}
  {
    if Stored(s, e).Some? {
      match e
      case ResultArrives(id, r) => ArrivedKeys(s, id, r);
      case OwnResult(r) => OwnKeys(s, r);
    }
  }

  lemma SizesOfKeys(s: State)
    ensures |s.players| == |s.players.Keys| && |s.results| == |s.results.Keys|
  {
  }

  lemma StepSizes(s: State, e: Event)
    requires Fixed(s, e)
    ensures |AfterEvent(s, e).players| == |s.players|
    ensures |AfterEvent(s, e).results| == |s.results| + if Stored(s, e).Some? then 1 else 0
  {
    FixedKeepsPlayers(s, e);
    ResultKeys(s, e);
    SizesOfKeys(s);
    SizesOfKeys(AfterEvent(s, e));
  }

  /** The end is scheduled by a step that makes the counts equal and handles its result, and by no other. */
  lemma ScheduledStep(s: State, e: Event)
    ensures var t := AfterEvent(s, e);
      t.scheduled + t.finishes == s.scheduled + s.finishes + if EndsMatch(s, e) then 1 else 0
  {
    match e
    case ResultArrives(id, r) =>
      if Stored(s, e).Some? && Handled(s, e) {
        var checked := s.(results := s.results[id := r], players := s.players[id := false]);
        assert AfterEvent(s, e) == AfterCheck(checked);
      }
    case OwnResult(r) =>
      if Stored(s, e).Some? {
        assert AfterEvent(s, e) == AfterCheck(s.(results := s.results[HOST := r]));
      }
    case _ =>
  }

  /** How many steps of the run ended the match. */
  function Ends(history: seq<Event>): nat {
    if history == [] then 0
    else
      var before, e := history[..|history| - 1], history[|history| - 1];
      Ends(before) + if EndsMatch(AfterAll(NO_GAME, before), e) then 1 else 0
  }

  /** In every run, players entering and leaving or not, each of those steps led to one end, come or still to come. */
  lemma {:induction false} EndsCounted(history: seq<Event>)
    ensures AfterAll(NO_GAME, history).scheduled + AfterAll(NO_GAME, history).finishes == Ends(history)
  {
    if history != [] {
      EndsCounted(history[..|history| - 1]);
      ScheduledStep(AfterAll(NO_GAME, history[..|history| - 1]), history[|history| - 1]);
    }
  }

  /** With fixed players there is at most one. */
  lemma EndStep(s: State, e: Event)
    requires Sound(s) && Fixed(s, e)
    ensures var t := AfterEvent(s, e);
      Sound(t) && t.scheduled + t.finishes == s.scheduled + s.finishes + if EndsMatch(s, e) then 1 else 0
  {
    StepSizes(s, e);
    ScheduledStep(s, e);
  }

  ghost predicate EndsAt(start: State, history: seq<Event>, i: nat)
    requires i < |history|
  {
    EndsMatch(AfterAll(start, history[..i]), history[i])
  }

  ghost predicate EndSeen(start: State, history: seq<Event>) {
    exists i :: 0 <= i < |history| && EndsAt(start, history, i)
  }

  lemma EndSeenStep(start: State, before: seq<Event>, e: Event)
    ensures EndSeen(start, before + [e]) <==> EndSeen(start, before) || EndsMatch(AfterAll(start, before), e)
  {
    var history := before + [e];
    var n := |before|;
    forall i | 0 <= i < n ensures EndsAt(start, history, i) <==> EndsAt(start, before, i) {
      assert history[..i] == before[..i];
    }
    assert history[..n] == before;
    assert EndsAt(start, history, n) <==> EndsMatch(AfterAll(start, before), e);
  }

  /** The players are those of the start throughout. */
  lemma {:induction false} SamePlayers(start: State, history: seq<Event>)
    requires AllFixed(start, history)
    ensures AfterAll(start, history).players.Keys == start.players.Keys
  {
    if history != [] {
      var before := history[..|history| - 1];
      SamePlayers(start, before);
      FixedKeepsPlayers(AfterAll(start, before), history[|history| - 1]);
    }
  }

  /**
   * In every run with fixed players, whoever the results are for, the end is scheduled at most once,
   * never before there are as many results as players, and exactly if some step stored the result that
   * makes them as many and could handle it.
   */
  lemma {:induction false} EndScheduledIff(start: State, history: seq<Event>)
    requires JustStarted(start) && AllFixed(start, history)
    ensures Sound(AfterAll(start, history))
    ensures var s := AfterAll(start, history); s.scheduled + s.finishes == 1 <==> EndSeen(start, history)
  {
    if history != [] {
      var before, e := history[..|history| - 1], history[|history| - 1];
      assert history == before + [e];
      EndScheduledIff(start, before);
      EndStep(AfterAll(start, before), e);
      EndSeenStep(start, before, e);
    }
  }

  // ---------- whose result is kept ----------

  /** The event brings this result for this player. */
  predicate Brings(e: Event, id: PlayerId, r: Result) {
    e == ResultArrives(id, r) || (id == HOST && e == OwnResult(r))
  }

  ghost predicate BroughtAt(start: State, history: seq<Event>, i: nat, id: PlayerId, r: Result)
    requires i < |history|
  {
    Brings(history[i], id, r) && id !in AfterAll(start, history[..i]).results
  }

  lemma StepKeepsResults(s: State, e: Event, id: PlayerId)
    ensures id in s.results ==> id in AfterEvent(s, e).results && AfterEvent(s, e).results[id] == s.results[id]
    ensures id in AfterEvent(s, e).results && id !in s.results ==> Brings(e, id, AfterEvent(s, e).results[id])
  {
  }

  lemma AfterOneMore(start: State, history: seq<Event>, e: Event)
    ensures AfterAll(start, history + [e]) == AfterEvent(AfterAll(start, history), e)
  {
    assert (history + [e])[..|history|] == history;
  }

  /** A result once stored stays as it is, whatever happens. */
  lemma {:induction false} ResultStays(start: State, before: seq<Event>, more: seq<Event>, id: PlayerId)
    requires id in AfterAll(start, before).results
    ensures var s := AfterAll(start, before + more);
      id in s.results && s.results[id] == AfterAll(start, before).results[id]
  {
    if more == [] {
      assert before + more == before;
    } else {
      var most, e := more[..|more| - 1], more[|more| - 1];
      ResultStays(start, before, most, id);
      var s := AfterAll(start, before + most);
      assert before + more == (before + most) + [e];
      AfterOneMore(start, before + most, e);
      StepKeepsResults(s, e, id);
    }
  }

  /** In every run the result held for a player was brought for that player when none was held yet. */
  lemma {:induction false} ResultBrought(start: State, history: seq<Event>, id: PlayerId) returns (i: nat)
    requires id in AfterAll(start, history).results && id !in start.results
    ensures i < |history| && BroughtAt(start, history, i, id, AfterAll(start, history).results[id])
  {
    var before, e := history[..|history| - 1], history[|history| - 1];
    var s := AfterAll(start, before);
    StepKeepsResults(s, e, id);
    if id in s.results {
      i := ResultBrought(start, before, id);
      assert history[..i] == before[..i];
    } else {
      i := |history| - 1;
    }
  }

  // ---------- who is connected ----------

  /** The player has joined as someone new, and has not left since. */
  predicate Here(history: seq<Event>, id: PlayerId) {
    history != [] &&
    (var before, e := history[..|history| - 1], history[|history| - 1];
     if e == Joins(id) && id !in AfterAll(NO_GAME, before).players then true
     else e != Leaves(id) && Here(before, id))
  }

  lemma {:induction false} WithoutIt(s: seq<PlayerId>, id: PlayerId)
    requires Distinct(s)
    ensures Distinct(Without(s, id)) && forall x :: x in Without(s, id) <==> x in s && x != id
  {
    if s != [] {
      WithoutIt(s[1..], id);
      assert s == [s[0]] + s[1..];
      assert s[0] !in s[1..];
      var rest := Without(s[1..], id);
      forall i | 0 <= i < |rest| ensures rest[i] in s[1..] {
        assert rest[i] in rest;
      }
    }
  }

  ghost predicate ConnectedKnown(s: State) {
    Distinct(s.connected) && forall x :: x in s.connected ==> x in s.players
  }

  lemma JoinedConnected(s: State, x: PlayerId)
    requires ConnectedKnown(s)
    ensures ConnectedKnown(AfterJoin(s, x))
    ensures forall id :: id in AfterJoin(s, x).connected <==> (x == id && id !in s.players) || id in s.connected
  {
  }

  lemma ConnectedStep(s: State, e: Event, id: PlayerId)
    requires ConnectedKnown(s)
    ensures ConnectedKnown(AfterEvent(s, e))
    ensures id in AfterEvent(s, e).connected <==>
      (e == Joins(id) && id !in s.players) || (e != Leaves(id) && id in s.connected)
  {
    match e
    case Joins(x) => JoinedConnected(s, x);
    case Leaves(x) => WithoutIt(s.connected, x);
    case _ =>
  }

  /** In every run each player who is here is on the list of connections once, and nobody else. */
  lemma {:induction false} ConnectedIff(history: seq<Event>, id: PlayerId)
    ensures ConnectedKnown(AfterAll(NO_GAME, history))
    ensures id in AfterAll(NO_GAME, history).connected <==> Here(history, id)
  {
    if history != [] {
      var before := history[..|history| - 1];
      ConnectedIff(before, id);
      ConnectedStep(AfterAll(NO_GAME, before), history[|history| - 1], id);
    }
  }

  // ---------- who plays ----------

  /** The game was started, and since then no lobby was opened and no delayed check ended it. */
  predicate GameOn(history: seq<Event>) {
    history != [] &&
    (var before, e := history[..|history| - 1], history[|history| - 1];
     e == StartsGame ||
     (e != OpensLobby && !(e == DelayEnds && AfterAll(NO_GAME, before).scheduled > 0) && GameOn(before)))
  }

  /** The player joined, was seen moving or hosts the game, and has not left since outside a game. */
  predicate Plays(history: seq<Event>, id: PlayerId) {
    history != [] &&
    (var before, e := history[..|history| - 1], history[|history| - 1];
     e == Joins(id) || (e == StartsGame && id == HOST) || (e == Moves(id) && GameOn(before)) ||
     (Plays(before, id) && (e != Leaves(id) || GameOn(before))))
  }

  /** A result for the player is taken while the game is on and none is held. */
  predicate ReportedBy(history: seq<Event>, e: Event, id: PlayerId) {
    GameOn(history) && e.ResultArrives? && e.id == id && id !in AfterAll(NO_GAME, history).results
  }

  /** The player's object came with the start of the game or the first move, and is not gone since. */
  predicate ObjectThere(history: seq<Event>, id: PlayerId) {
    history != [] &&
    (var before, e := history[..|history| - 1], history[|history| - 1];
     (e == StartsGame && Plays(history, id)) || (e == Moves(id) && GameOn(before) && !Plays(before, id)) ||
     (ObjectThere(before, id) && e != Leaves(id) && !ReportedBy(before, e, id)))
  }

  predicate HasObject(s: State, id: PlayerId) {
    id in s.players && s.players[id]
  }

  lemma StartedWith(s: State, id: PlayerId)
    ensures id in AfterStart(s).players <==> id == HOST || id in s.players
    ensures HasObject(AfterStart(s), id) <==> id == HOST || id in s.players
  {
  }

  lemma PlaysStep(s: State, e: Event, id: PlayerId)
    ensures id in AfterEvent(s, e).players <==>
      e == Joins(id) || (e == StartsGame && id == HOST) || (e == Moves(id) && s.phase == Started) ||
      (id in s.players && (e != Leaves(id) || s.phase == Started))
  {
    match e
    case StartsGame => StartedWith(s, id);
    case _ =>
  }

  lemma PhaseStep(s: State, e: Event)
    ensures AfterEvent(s, e).phase == Started <==>
      e == StartsGame || (e != OpensLobby && !(e == DelayEnds && s.scheduled > 0) && s.phase == Started)
  {
    match e
    case ResultArrives(x, r) =>
    case _ =>
  }

  lemma ArrivedObject(s: State, x: PlayerId, r: Result, id: PlayerId)
    ensures HasObject(AfterResult(s, x, r), id) <==>
      HasObject(s, id) && !(s.phase == Started && x == id && id !in s.results)
  {
  }

  lemma ObjectStep(s: State, e: Event, id: PlayerId)
    ensures HasObject(AfterEvent(s, e), id) <==>
      (e == StartsGame && (id == HOST || id in s.players)) ||
      (e == Moves(id) && s.phase == Started && id !in s.players) ||
      (HasObject(s, id) && e != Leaves(id) &&
       !(s.phase == Started && e.ResultArrives? && e.id == id && id !in s.results))
  {
    match e
    case ResultArrives(x, r) => ArrivedObject(s, x, r, id);
    case StartsGame => StartedWith(s, id);
    case _ =>
  }

  /** In every run: whether the game is on, who plays and whose object is there. */
  lemma {:induction false} PlayersIff(history: seq<Event>, id: PlayerId)
    ensures var s := AfterAll(NO_GAME, history);
      && (s.phase == Started <==> GameOn(history))
      && (id in s.players <==> Plays(history, id))
      && (HasObject(s, id) <==> ObjectThere(history, id))
  {
    if history != [] {
      var before, e := history[..|history| - 1], history[|history| - 1];
      PlayersIff(before, id);
      PhaseStep(AfterAll(NO_GAME, before), e);
      PlaysStep(AfterAll(NO_GAME, before), e, id);
      ObjectStep(AfterAll(NO_GAME, before), e, id);
    }
  }

  // ---------- whether the end comes too early ----------

  predicate StoresUnknown(s: State, e: Event, known: set<PlayerId>) {
    Stored(s, e).Some? && Stored(s, e).value !in known
  }

  ghost predicate UnknownAt(start: State, history: seq<Event>, i: nat)
    requires i < |history|
  {
    StoresUnknown(AfterAll(start, history[..i]), history[i], start.players.Keys)
  }

  /** Some step of the run stored a result for someone who is not a player. */
  ghost predicate UnknownSeen(start: State, history: seq<Event>) {
    exists i :: 0 <= i < |history| && UnknownAt(start, history, i)
  }

  lemma UnknownSeenStep(start: State, before: seq<Event>, e: Event)
    ensures UnknownSeen(start, before + [e])
       <==> UnknownSeen(start, before) || StoresUnknown(AfterAll(start, before), e, start.players.Keys)
  {
    var history := before + [e];
    var n := |before|;
    forall i | 0 <= i < n ensures UnknownAt(start, history, i) <==> UnknownAt(start, before, i) {
      assert history[..i] == before[..i];
    }
    assert history[..n] == before;
    assert UnknownAt(start, history, n) <==> StoresUnknown(AfterAll(start, before), e, start.players.Keys);
  }

  lemma {:induction false} ResultsKnownIff(start: State, history: seq<Event>)
    requires JustStarted(start) && AllFixed(start, history)
    ensures AfterAll(start, history).results.Keys <= start.players.Keys <==> !UnknownSeen(start, history)
  {
    if history != [] {
      var before, e := history[..|history| - 1], history[|history| - 1];
      assert history == before + [e];
      ResultsKnownIff(start, before);
      SamePlayers(start, before);
      ResultKeys(AfterAll(start, before), e);
      UnknownSeenStep(start, before, e);
    }
  }

  lemma FinishedIsComplete(s: State)
    requires Finished(s)
    ensures Complete(s) <==> s.results.Keys <= s.players.Keys
  {
    SizesOfKeys(s);
    if s.results.Keys <= s.players.Keys {
      SameSizeSubset(s.results.Keys, s.players.Keys);
    }
  }

  /**
   * When a step schedules the end, every player has a result if and only if no step so far stored a
   * result for someone who is not a player.
   */
  lemma EndCompleteIff(start: State, before: seq<Event>, e: Event)
    requires JustStarted(start) && AllFixed(start, before + [e])
    requires EndsMatch(AfterAll(start, before), e)
    ensures Complete(AfterAll(start, before + [e])) <==> !UnknownSeen(start, before + [e])
  {
    var history := before + [e];
    assert history[..|history| - 1] == before;
    SamePlayers(start, history);
    ResultsKnownIff(start, history);
    FinishedIsComplete(AfterAll(start, history));
  }

  /** So while all results are for players the end is never scheduled before every player has one. */
  lemma NeverEarly(start: State, history: seq<Event>)
    requires JustStarted(start) && AllFixed(start, history) && !UnknownSeen(start, history)
    ensures var s := AfterAll(start, history); s.scheduled + s.finishes == 1 ==> Complete(s)
  {
    var s := AfterAll(start, history);
    EndScheduledIff(start, history);
    SamePlayers(start, history);
    ResultsKnownIff(start, history);
    SizesOfKeys(s);
    SmallerSubset(s.results.Keys, s.players.Keys);
    if Full(s) {
      SameSizeSubset(s.results.Keys, s.players.Keys);
    }
  }

  // ---------- a match that never ends ----------

  /** There are as many results as players, and the end is not scheduled. */
  predicate Stuck(s: State) {
    Full(s) && s.scheduled == 0 && s.finishes == 0
  }

  lemma StuckStep(s: State, e: Event)
    requires Stuck(s) && Fixed(s, e)
    ensures Stuck(AfterEvent(s, e))
  {
    StepSizes(s, e);
    EndStep(s, e);
  }

  /** Then it never is, whatever happens. */
  lemma {:induction false} StuckForever(start: State, history: seq<Event>)
    requires Stuck(start) && AllFixed(start, history)
    ensures Stuck(AfterAll(start, history))
  {
    if history != [] {
      var before := history[..|history| - 1];
      StuckForever(start, before);
      StuckStep(AfterAll(start, before), history[|history| - 1]);
    }
  }

  /** That begins exactly with a step that stores the result completing the count but cannot handle it. */
  lemma StuckIff(s: State, e: Event)
    requires Sound(s) && !Full(s) && Fixed(s, e)
    ensures Stuck(AfterEvent(s, e)) <==> Stored(s, e).Some? && !Handled(s, e) && Finished(AfterEvent(s, e))
  {
    StepSizes(s, e);
    EndStep(s, e);
  }

  const DIED := Result("", 0, 0.0, 0, Died)

  lemma {:induction false} AfterMore(start: State, history: seq<Event>, more: seq<Event>)
    ensures AfterAll(start, history + more) == AfterAll(AfterAll(start, history), more)
  {
    if more == [] {
      assert history + more == history;
    } else {
      var all := history + more;
      assert all[..|all| - 1] == history + more[..|more| - 1];
      AfterMore(start, history, more[..|more| - 1]);
    }
  }

  lemma AfterTwo(start: State, a: Event, b: Event)
    ensures AfterAll(start, [a, b]) == AfterEvent(AfterEvent(start, a), b)
  {
    assert [a, b][..1] == [a] && [a][..0] == [];
    assert AfterAll(start, [a]) == AfterEvent(AfterAll(start, []), a);
  }

  /** One client joins the lobby. */
  const LOBBY := [OpensLobby, Joins(1)]

  lemma InLobby()
    ensures AfterAll(NO_GAME, LOBBY) == State(Searching, map[1 := false], [1], map[], 0, 0)
  {
    AfterTwo(NO_GAME, OpensLobby, Joins(1));
    assert NO_GAME.players[1 := false] == map[1 := false] && NO_GAME.connected + [1] == [1];
  }

  lemma StartedBoth(s: State)
    requires s == State(Searching, map[1 := false], [1], map[], 0, 0)
    ensures AfterStart(s) == State(Started, map[HOST := true, 1 := true], [1], map[], 0, 0)
  {
    assert AfterStart(s).players == map[HOST := true, 1 := true];
  }

  lemma OneReported(s: State)
    requires s == State(Started, map[HOST := true, 1 := true], [1], map[], 0, 0)
    ensures AfterOwnResult(s, DIED) == s.(results := map[HOST := DIED])
    ensures AfterResult(s, 7, DIED) == s.(results := map[7 := DIED])
  {
    assert s.results[HOST := DIED] == map[HOST := DIED] && s.results[7 := DIED] == map[7 := DIED];
    var reported := s.(results := map[HOST := DIED]);
    assert reported.players.Keys == {HOST, 1} && reported.results.Keys == {HOST};
    SizesOfKeys(reported);
  }

  /** A first result arrives in the game that follows. */
  lemma AfterFirst(e: Event)
    requires e == OwnResult(DIED) || e == ResultArrives(7, DIED)
    ensures AfterAll(NO_GAME, LOBBY + [StartsGame, e])
         == State(Started, map[HOST := true, 1 := true], [1], map[(if e.OwnResult? then HOST else 7) := DIED], 0, 0)
  {
    var lobby := AfterAll(NO_GAME, LOBBY);
    InLobby();
    AfterMore(NO_GAME, LOBBY, [StartsGame, e]);
    AfterTwo(lobby, StartsGame, e);
    StartedBoth(lobby);
    OneReported(AfterStart(lobby));
  }

  lemma LeftBeforeReport(s: State)
    requires s == State(Started, map[HOST := true, 1 := true], [1], map[HOST := DIED], 0, 0)
    ensures Stuck(AfterResult(AfterLeave(s, 1), 1, DIED))
  {
    var s1 := AfterLeave(s, 1);
    assert s1.players == map[HOST := true, 1 := false];
    var s2 := AfterResult(s1, 1, DIED);
    assert s2.players.Keys == {HOST, 1} == s2.results.Keys;
    SizesOfKeys(s2);
  }

  /**
   * From an empty server: a client leaves during the game, and its death is reported after that, by
   * another client's packet, say, for the number in a packet is not compared with its connection.
   */
  lemma LeaverBlocksEnd()
    ensures Stuck(AfterAll(NO_GAME, LOBBY + [StartsGame, OwnResult(DIED)] + [Leaves(1), ResultArrives(1, DIED)]))
  {
    var before := LOBBY + [StartsGame, OwnResult(DIED)];
    AfterFirst(OwnResult(DIED));
    AfterMore(NO_GAME, before, [Leaves(1), ResultArrives(1, DIED)]);
    AfterTwo(AfterAll(NO_GAME, before), Leaves(1), ResultArrives(1, DIED));
    LeftBeforeReport(AfterAll(NO_GAME, before));
  }

  lemma SecondReported(s: State)
    requires s == State(Started, map[HOST := true, 1 := true], [1], map[7 := DIED], 0, 0)
    ensures AfterOwnResult(s, DIED) == s.(results := map[7 := DIED, HOST := DIED], scheduled := 1)
  {
    var reported := s.(results := s.results[HOST := DIED]);
    assert reported.results == map[7 := DIED, HOST := DIED];
    assert reported.results.Keys == {7, HOST} && reported.players.Keys == {HOST, 1};
    SizesOfKeys(reported);
  }

  /** From an empty server: a result for someone unknown ends the match before a player has a result. */
  lemma UnknownResultEndsEarly()
    ensures var s := AfterAll(NO_GAME, LOBBY + [StartsGame, ResultArrives(7, DIED)] + [OwnResult(DIED)]);
      s.scheduled == 1 && 1 in s.players && 1 !in s.results
  {
    var before := LOBBY + [StartsGame, ResultArrives(7, DIED)];
    AfterFirst(ResultArrives(7, DIED));
    AfterMore(NO_GAME, before, [OwnResult(DIED)]);
    var s := AfterAll(NO_GAME, before);
    assert [OwnResult(DIED)][..0] == [];
    assert AfterAll(s, [OwnResult(DIED)]) == AfterEvent(AfterAll(s, []), OwnResult(DIED));
    SecondReported(s);
  }
}
