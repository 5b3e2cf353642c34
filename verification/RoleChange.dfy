/** Optimistic team and role changes: what a click shows at once, and how acks, syncs,
    errors and the failsafe timer settle it. */
module RoleChange {
  import opened Common
  import opened GameRules

  /** The player's team and the team of each acting role. */
  datatype Seat = Seat(playerTeam: Option<Team>, spymasterTeam: Option<Team>, clickerTeam: Option<Team>)

  datatype Role = Spymaster | Clicker | OtherRole

  datatype Kind = ChangingTeam | ChangingRole

  /** A change waiting for the server, with the seat its revert restores. */
  datatype Change = Idle | InFlight(kind: Kind, op: nat, prior: Seat, since: int)

  /** The armed failsafe, and the operation it was armed for. */
  datatype Timer = Timer(op: nat, due: int)

  datatype State = State(seat: Seat, change: Change, timer: Option<Timer>, nextOp: nat)

  const ROLE_CHANGE_ABSOLUTE_TIMEOUT_MS: int := 10_000
  const EMPTY_SEAT: Seat := Seat(None, None, None)
  const START: State := State(EMPTY_SEAT, Idle, None, 0)

  // ---- What a click shows ----

  function OnTeam(s: Seat, team: Option<Team>): Seat {
    if s.playerTeam != team then Seat(team, None, None) else s
  }

  /** A role clicked again is given up; otherwise it is taken, with its team, and the
      other role is given up. */
  function OnRole(s: Seat, role: Role, team: Team): Seat {
    if role == Spymaster then
      if s.spymasterTeam == Some(team) then s.(spymasterTeam := None) else Seat(Some(team), Some(team), None)
    else
      if s.clickerTeam == Some(team) then s.(clickerTeam := None) else Seat(Some(team), None, Some(team))
  }

  /** A local new game, a loaded link or a local observer toggle gives up the roles. */
  function Dropped(s: Seat, keepTeam: bool): Seat {
    Seat(if keepTeam then s.playerTeam else None, None, None)
  }

  /** The seat a server record describes. */
  function Synced(role: Role, team: Option<Team>): Seat {
    Seat(team, if role == Spymaster then team else None, if role == Clicker then team else None)
  }

  // ---- Steps ----

  datatype Link = Standalone | Offline | NoRoom | InRoom

  datatype Event =
    | ClickTeam(team: Option<Team>, link: Link, at: int)
    | ClickRole(role: Role, clicked: Team, link: Link, at: int)
    | Ack(op: nat, error: bool)
    | PlayerUpdated(updatedRole: Role, updatedTeam: Option<Team>, roleChanged: bool, teamChanged: bool)
    | Resynced(resyncedRole: Role, resyncedTeam: Option<Team>)
    | ServerError
    | Disconnected
    | Reset
    | RolesDropped(keepTeam: bool)
    | TimerFires(firedAt: int)

  predicate WellFormed(e: Event) {
    e.ClickRole? ==> e.role != OtherRole
  }

  /** Arm the failsafe, dropping any earlier one, and show the change. */
  function Begin(s: State, kind: Kind, shown: Seat, at: int): State {
    State(shown, InFlight(kind, s.nextOp, s.seat, at), Some(Timer(s.nextOp, at + ROLE_CHANGE_ABSOLUTE_TIMEOUT_MS)), s.nextOp + 1)
  }

  function Clicked(s: State, kind: Kind, shown: Seat, link: Link, at: int): State {
    match link
    case Standalone => s.(seat := shown)
    case InRoom => if s.change.InFlight? then s else Begin(s, kind, shown, at)
    case _ => s
  }

  function Cleared(s: State): State {
    s.(change := Idle, timer := None)
  }

  /** The revert leaves the failsafe armed. */
  function Reverted(s: State): State {
    if s.change.InFlight? then s.(seat := s.change.prior, change := Idle) else s
  }

  /** A timer fires no earlier than it is due. */
  predicate Due(s: State, at: int) {
    s.timer.Some? && s.timer.value.due <= at
  }

  function Fired(s: State): State {
    if s.change.InFlight? then Cleared(s) else s.(timer := None)
  }

  predicate Confirms(c: Change, roleChanged: bool, teamChanged: bool) {
    c.InFlight? && (teamChanged || (c.kind == ChangingRole && roleChanged))
  }

  function Step(s: State, e: Event): State {
    match e
    case ClickTeam(team, link, at) => Clicked(s, ChangingTeam, OnTeam(s.seat, team), link, at)
    case ClickRole(role, team, link, at) => Clicked(s, ChangingRole, OnRole(s.seat, role, team), link, at)
    case Ack(op, error) => if error && s.change.InFlight? && s.change.op == op then Reverted(s) else s
    case PlayerUpdated(role, team, roleChanged, teamChanged) =>
      if s.change.Idle? || Confirms(s.change, roleChanged, teamChanged) then Cleared(s.(seat := Synced(role, team))) else s
    case Resynced(role, team) => s.(seat := Synced(role, team))
    case ServerError => Reverted(s)
    case Disconnected => Reverted(s)
    case Reset => Cleared(s.(seat := EMPTY_SEAT))
    case RolesDropped(keepTeam) => s.(seat := Dropped(s.seat, keepTeam))
    case TimerFires(at) => if Due(s, at) then Fired(s) else s
  }

  function After(run: seq<Event>): State {
    if run == [] then START else Step(After(run[..|run|-1]), run[|run|-1])
  }

  // ---- What every run keeps ----

  /** Never both roles, and each one held is the player's own team's. */
  predicate Agrees(s: Seat) {
    && !(s.spymasterTeam.Some? && s.clickerTeam.Some?)
    && (s.spymasterTeam.Some? ==> s.spymasterTeam == s.playerTeam)
    && (s.clickerTeam.Some? ==> s.clickerTeam == s.playerTeam)
  }

  /** A change in flight is the newest operation, would revert to an agreeing seat, and has
      its own failsafe armed, due ten seconds after its click. */
  predicate Guarded(c: Change, timer: Option<Timer>, nextOp: nat) {
    c.InFlight? ==>
      && c.op + 1 == nextOp && Agrees(c.prior)
      && timer == Some(Timer(c.op, c.since + ROLE_CHANGE_ABSOLUTE_TIMEOUT_MS))
  }

  predicate Invariant(s: State) {
    && Agrees(s.seat) && Guarded(s.change, s.timer, s.nextOp)
    && (s.timer.Some? ==> s.timer.value.op < s.nextOp)
  }

  lemma StepKeeps(s: State, e: Event)
    requires Invariant(s) && WellFormed(e)
    ensures Invariant(Step(s, e))
  {
  }

  lemma {:induction false} EveryRunKeepsRoles(run: seq<Event>)
    requires forall i :: 0 <= i < |run| ==> WellFormed(run[i])
    ensures Invariant(After(run))
  {
    if run != [] {
      EveryRunKeepsRoles(run[..|run|-1]);
      StepKeeps(After(run[..|run|-1]), run[|run|-1]);
    }
  }

  /** Continue from a state. */
  function Continue(s: State, run: seq<Event>): State {
    if run == [] then s else Step(Continue(s, run[..|run|-1]), run[|run|-1])
  }

  lemma {:induction false} ContinueKeeps(s: State, run: seq<Event>)
    requires Invariant(s) && forall i :: 0 <= i < |run| ==> WellFormed(run[i])
    ensures Invariant(Continue(s, run)) && Continue(s, run).nextOp >= s.nextOp
  {
    if run != [] {
      ContinueKeeps(s, run[..|run|-1]);
      StepKeeps(Continue(s, run[..|run|-1]), run[|run|-1]);
    }
  }

  lemma {:induction false} InFlightRemembers(s: State, run: seq<Event>)
    requires Invariant(s) && s.change.InFlight? && forall i :: 0 <= i < |run| ==> WellFormed(run[i])
    ensures var t := Continue(s, run);
            t.change.InFlight? && t.change.op == s.change.op ==> t.change == s.change && t.timer == s.timer
    ensures Continue(s, run).change.Idle? || Continue(s, run).change.op >= s.change.op
  {
    if run != [] {
      var pre := run[..|run|-1];
      InFlightRemembers(s, pre);
      ContinueKeeps(s, pre);
    }
  }

  /** Whatever happens in between, the error ack of a change still in flight restores the
      seat its click found, and ends the change. */
  lemma ErrorAckRestores(s: State, click: Event, mid: seq<Event>)
    requires Invariant(s) && s.change.Idle? && (click.ClickTeam? || click.ClickRole?) && WellFormed(click) && click.link == InRoom
    requires forall i :: 0 <= i < |mid| ==> WellFormed(mid[i])
    ensures var t := Continue(Step(s, click), mid);
            t.change.InFlight? && t.change.op == s.nextOp ==>
              Step(t, Ack(s.nextOp, true)).seat == s.seat && Step(t, Ack(s.nextOp, true)).change.Idle?
  {
    StepKeeps(s, click);
    InFlightRemembers(Step(s, click), mid);
  }

  /** An ack of any operation but the one in flight changes nothing. */
  lemma StaleAckIsIgnored(s: State, op: nat, error: bool)
    requires Invariant(s) && op + 1 < s.nextOp
    ensures Step(s, Ack(op, error)) == s
  {
  }

  // ---- What is shown ----

  predicate Shows(s: Seat, role: Role, team: Option<Team>) {
    && s.playerTeam == team
    && s.spymasterTeam == (if role == Spymaster && team.Some? then team else None)
    && s.clickerTeam == (if role == Clicker && team.Some? then team else None)
  }

  lemma AfterOne(run: seq<Event>, e: Event)
    ensures After(run + [e]) == Step(After(run), e)
  {
    assert (run + [e])[..|run|] == run;
  }

  /** In every run a resync shows the player's team and role as the server gives them and
      leaves a change in flight; so does an update that comes while none is or that confirms
      it, and ends it. Any other update changes nothing. */
  lemma MessageIsShown(run: seq<Event>, e: Event)
    ensures var s, t := After(run), After(run + [e]);
            && (e.Resynced? ==> Shows(t.seat, e.resyncedRole, e.resyncedTeam) && t.change == s.change)
            && (e.PlayerUpdated? ==>
                  if s.change.Idle? || e.teamChanged || (s.change.kind == ChangingRole && e.roleChanged)
                  then Shows(t.seat, e.updatedRole, e.updatedTeam) && t.change.Idle? && t.timer.None?
                  else t == s)
  {
    AfterOne(run, e);
  }

  /** What a click on a team shows: that team, and its own role given up exactly if it
      changes. */
  predicate ShowsTeam(before: Seat, after: Seat, team: Option<Team>) {
    && after.playerTeam == team
    && (before.playerTeam == team ==> after == before)
    && (before.playerTeam != team ==> after.spymasterTeam.None? && after.clickerTeam.None?)
  }

  /** What a click on a role of a team shows: the role and the team taken and the other role
      given up, or, if it was held, that role given up and nothing else. */
  predicate ShowsRole(before: Seat, after: Seat, role: Role, team: Team) {
    var held := if role == Spymaster then before.spymasterTeam == Some(team) else before.clickerTeam == Some(team);
    if held then
      && after.playerTeam == before.playerTeam
      && after.spymasterTeam == (if role == Spymaster then None else before.spymasterTeam)
      && after.clickerTeam == (if role == Spymaster then before.clickerTeam else None)
    else
      && after.playerTeam == Some(team)
      && after.spymasterTeam == (if role == Spymaster then Some(team) else None)
      && after.clickerTeam == (if role == Spymaster then None else Some(team))
  }

  /** In every run a click outside any room is shown at once; in a room so is one that finds
      no change in flight, which then is, with the seat before it to fall back to and its
      failsafe ten seconds off; offline, between rooms and during a change it does nothing. */
  lemma ClickIsShown(run: seq<Event>, e: Event)
    requires e.ClickTeam? || e.ClickRole?
    ensures var s, t := After(run), After(run + [e]);
            if e.link == Standalone || (e.link == InRoom && s.change.Idle?) then
              && (e.ClickTeam? ==> ShowsTeam(s.seat, t.seat, e.team))
              && (e.ClickRole? ==> ShowsRole(s.seat, t.seat, e.role, e.clicked))
              && (e.link == Standalone ==> t.change == s.change)
              && (e.link == InRoom ==>
                    && t.change == InFlight(if e.ClickTeam? then ChangingTeam else ChangingRole, s.nextOp, s.seat, e.at)
                    && t.timer == Some(Timer(s.nextOp, e.at + 10_000)))
            else t == s
  {
    AfterOne(run, e);
  }

  /** In every run the rest shows: an error ack of the change in flight, a server error and
      a lost connection bring back the seat before its click and end it; any other ack does
      nothing; a reset clears the seat and ends the change; a local drop takes the roles, and
      the team unless it is kept. */
  lemma EndIsShown(run: seq<Event>, e: Event)
    ensures var s, t := After(run), After(run + [e]);
            && (e.ServerError? || e.Disconnected? || (e.Ack? && e.error && s.change.InFlight? && s.change.op == e.op) ==>
                  && t.seat == (if s.change.InFlight? then s.change.prior else s.seat)
                  && t.change.Idle? && t.timer == s.timer)
            && (e.Ack? && !(e.error && s.change.InFlight? && s.change.op == e.op) ==> t == s)
            && (e.Reset? ==> t.seat == Seat(None, None, None) && t.change.Idle? && t.timer.None?)
            && (e.RolesDropped? ==>
                  && t.seat == Seat(if e.keepTeam then s.seat.playerTeam else None, None, None)
                  && t.change == s.change && t.timer == s.timer)
  {
    AfterOne(run, e);
  }

  // ---- What a revert puts back ----

  /** A server message about the player, whatever the client makes of it. */
  predicate FromServer(e: Event) {
    e.PlayerUpdated? || e.Resynced?
  }

  function Said(e: Event): Seat
    requires FromServer(e)
  {
    if e.PlayerUpdated? then Synced(e.updatedRole, e.updatedTeam) else Synced(e.resyncedRole, e.resyncedTeam)
  }

  /** A change made without the server. */
  predicate Local(e: Event) {
    e.Reset? || e.RolesDropped? || ((e.ClickTeam? || e.ClickRole?) && e.link == Standalone)
  }

  /** The server's last word on the player's seat: its last message, every one of them,
      or what a local change has made of the seat since. */
  function Told(run: seq<Event>): Seat {
    if run == [] then EMPTY_SEAT else
      var e := run[|run|-1];
      if FromServer(e) then Said(e) else if Local(e) then After(run).seat else Told(run[..|run|-1])
  }

  /** What the client falls back to: the seat before the change in flight, or the one
      shown. */
  function Fallback(s: State): Seat {
    if s.change.InFlight? then s.change.prior else s.seat
  }

  /** The step puts a new word into force: with no change in flight afterwards, the seat
      shown is the word. */
  predicate Adopts(s: State, e: Event) {
    (FromServer(e) || Local(e)) && Step(s, e).change.Idle?
  }

  /** Nothing has parted the fallback from the word, or what last could have did not: a
      message or local change that left the change in flight said the seat before the
      click, and a failsafe that gave up on a change left the word itself on show. */
  predicate InTouch(run: seq<Event>) {
    run == [] ||
    (var pre, e := run[..|run|-1], run[|run|-1];
     var s := After(pre);
     if Adopts(s, e) then true
     else if FromServer(e) || Local(e) then Told(run) == s.change.prior
     else if e.TimerFires? && Due(s, e.firedAt) && s.change.InFlight? then s.seat == Told(pre)
     else InTouch(pre))
  }

  lemma AdoptedIsShown(s: State, e: Event)
    requires Adopts(s, e) && FromServer(e)
    ensures Step(s, e).seat == Said(e)
  {
  }

  /** A message is left aside only while a change is in flight, and does not touch it. */
  lemma LeftAside(s: State, e: Event)
    requires (FromServer(e) || Local(e)) && !Adopts(s, e)
    ensures s.change.InFlight? && Step(s, e).change == s.change
  {
  }

  lemma Unheard(s: State, e: Event)
    requires !FromServer(e) && !Local(e)
    ensures (e.TimerFires? && Due(s, e.firedAt) && s.change.InFlight?) || Fallback(Step(s, e)) == Fallback(s)
  {
  }

  /** In every run the fallback is the server's last word exactly when the client is in
      touch. */
  lemma {:induction false} FallbackIsTheWordIff(run: seq<Event>)
    ensures Fallback(After(run)) == Told(run) <==> InTouch(run)
  {
    if run != [] {
      var pre, e := run[..|run|-1], run[|run|-1];
      var s := After(pre);
      FallbackIsTheWordIff(pre);
      if Adopts(s, e) {
        if FromServer(e) {
          AdoptedIsShown(s, e);
        }
      } else if FromServer(e) || Local(e) {
        LeftAside(s, e);
      } else {
        Unheard(s, e);
      }
    }
  }

  lemma {:induction false} AfterContinues(run: seq<Event>, more: seq<Event>)
    ensures After(run + more) == Continue(After(run), more)
  {
    if more == [] {
      assert run + more == run;
    } else {
      AfterContinues(run, more[..|more|-1]);
      assert (run + more)[..|run + more|-1] == run + more[..|more|-1];
    }
  }

  predicate Clicks(s: State, click: Event) {
    s.change.Idle? && (click.ClickTeam? || click.ClickRole?) && WellFormed(click) && click.link == InRoom
  }

  /** After any run and any events that leave the click's change in flight, its error ack
      shows the seat before the click; that is the server's last word exactly when the
      client was in touch. */
  lemma ErrorAckIsTheWordIff(run: seq<Event>, click: Event, mid: seq<Event>)
    requires forall i :: 0 <= i < |run| ==> WellFormed(run[i])
    requires forall i :: 0 <= i < |mid| ==> WellFormed(mid[i])
    requires Clicks(After(run), click)
    requires var t := After(run + ([click] + mid)); t.change.InFlight? && t.change.op == After(run).nextOp
    ensures var whole := run + ([click] + mid) + [Ack(After(run).nextOp, true)];
            && After(whole).seat == After(run).seat && After(whole).change.Idle?
            && Told(whole) == Told(run + ([click] + mid))
            && (After(whole).seat == Told(whole) <==> InTouch(run + ([click] + mid)))
  {
    var s, before, ack := After(run), run + ([click] + mid), Ack(After(run).nextOp, true);
    EveryRunKeepsRoles(run);
    AfterContinues(run, [click] + mid);
    ContinueClick(s, click, mid);
    ErrorAckRestores(s, click, mid);
    FallbackIsTheWordIff(before);
    assert (before + [ack])[..|before|] == before;
  }

  lemma {:induction false} ContinueClick(s: State, click: Event, mid: seq<Event>)
    ensures Continue(s, [click] + mid) == Continue(Step(s, click), mid)
  {
    if mid == [] {
      assert [click] + mid == [click] && [click][..0] == [];
    } else {
      ContinueClick(s, click, mid[..|mid|-1]);
      assert ([click] + mid)[..|mid|] == [click] + mid[..|mid|-1];
    }
  }

  predicate Quiet(es: seq<Event>) {
    forall i :: 0 <= i < |es| ==> !FromServer(es[i]) && !Local(es[i])
  }

  lemma {:induction false} QuietKeepsTheWord(run: seq<Event>, quiet: seq<Event>)
    requires Quiet(quiet)
    ensures Told(run + quiet) == Told(run)
  {
    if quiet == [] {
      assert run + quiet == run;
    } else {
      QuietKeepsTheWord(run, quiet[..|quiet|-1]);
      assert (run + quiet)[..|run + quiet|-1] == run + quiet[..|quiet|-1];
    }
  }

  /** When the server is silent during the change, the error shows its last word exactly
      if the seat before the click was that. */
  lemma SilentChangeReverts(run: seq<Event>, click: Event, mid: seq<Event>)
    requires forall i :: 0 <= i < |run| ==> WellFormed(run[i])
    requires forall i :: 0 <= i < |mid| ==> WellFormed(mid[i])
    requires Clicks(After(run), click) && Quiet(mid)
    requires var t := After(run + ([click] + mid)); t.change.InFlight? && t.change.op == After(run).nextOp
    ensures var whole := run + ([click] + mid) + [Ack(After(run).nextOp, true)];
            After(whole).seat == Told(whole) <==> InTouch(run)
  {
    ErrorAckIsTheWordIff(run, click, mid);
    QuietKeepsTheWord(run, [click] + mid);
    FallbackIsTheWordIff(run);
  }

  /** When it speaks during the change without ending it, the error undoes what it said
      last, unless that was the seat before the click: so for an update that does not
      confirm the change, and for every resync. */
  lemma SpokenChangeReverts(run: seq<Event>, click: Event, mid: seq<Event>, word: Event, quiet: seq<Event>)
    requires forall i :: 0 <= i < |run| ==> WellFormed(run[i])
    requires forall i :: 0 <= i < |mid| ==> WellFormed(mid[i])
    requires forall i :: 0 <= i < |quiet| ==> WellFormed(quiet[i])
    requires Clicks(After(run), click) && FromServer(word) && Quiet(quiet)
    requires var t := After(run + ([click] + (mid + [word] + quiet))); t.change.InFlight? && t.change.op == After(run).nextOp
    ensures var whole := run + ([click] + (mid + [word] + quiet)) + [Ack(After(run).nextOp, true)];
            && After(whole).seat == After(run).seat
            && (After(whole).seat == Told(whole) <==> After(run).seat == Said(word))
  {
    var spoken := run + ([click] + (mid + [word]));
    ErrorAckIsTheWordIff(run, click, mid + [word] + quiet);
    assert run + ([click] + (mid + [word] + quiet)) == spoken + quiet;
    QuietKeepsTheWord(spoken, quiet);
    assert spoken[|spoken|-1] == word;
  }

  /** Such runs exist. The server makes a player red's spymaster; the player clicks blue;
      the server takes the role away, which does not confirm a team change; the click is
      refused. The player is shown as the spymaster again. */
  lemma IgnoredUpdate(at: int)
    ensures var run := [PlayerUpdated(Spymaster, Some(Red), true, true), ClickTeam(Some(Blue), InRoom, at),
                        PlayerUpdated(OtherRole, Some(Red), true, false), Ack(0, true)];
            After(run).seat == Seat(Some(Red), Some(Red), None) && Told(run) == Seat(Some(Red), None, None)
  {
    var made, click := PlayerUpdated(Spymaster, Some(Red), true, true), ClickTeam(Some(Blue), InRoom, at);
    var taken, ack := PlayerUpdated(OtherRole, Some(Red), true, false), Ack(0, true);
    LostWord(made, click, taken, ack);
  }

  /** A resync to the other team during a refused click leaves the player with no team. */
  lemma OverwrittenResync(at: int)
    ensures var run := [PlayerUpdated(OtherRole, None, true, true), ClickTeam(Some(Red), InRoom, at),
                        Resynced(OtherRole, Some(Blue)), Ack(0, true)];
            After(run).seat == Seat(None, None, None) && Told(run) == Seat(Some(Blue), None, None)
  {
    LostWord(PlayerUpdated(OtherRole, None, true, true), ClickTeam(Some(Red), InRoom, at),
             Resynced(OtherRole, Some(Blue)), Ack(0, true));
  }

  lemma LostWord(first: Event, click: Event, word: Event, ack: Event)
    requires first.PlayerUpdated? && click.ClickTeam? && click.link == InRoom && ack == Ack(0, true)
    requires word.Resynced? || (word.PlayerUpdated? && !word.teamChanged)
    ensures After([first, click, word, ack]).seat == Said(first) && Told([first, click, word, ack]) == Said(word)
  {
    var r1, r2, r3, r4 := [first], [first, click], [first, click, word], [first, click, word, ack];
    assert r1[..0] == [] && r2[..1] == r1 && r3[..2] == r2 && r4[..3] == r3;
    assert After(r1) == Step(START, first) && After(r2) == Step(After(r1), click);
    assert After(r3) == Step(After(r2), word) && After(r4) == Step(After(r3), ack);
    assert Told(r3) == Said(word);
  }

  // ---- The failsafe ----

  /** In every run, when a change's failsafe fires the change is over and what it showed stays; it never
      ends a change less than ten seconds old, whatever timers earlier changes have left
      armed, and one left over from a revert changes nothing on the seat. */
  lemma {:induction false} FailsafeEndsItsChange(run: seq<Event>, at: int)
    requires forall i :: 0 <= i < |run| ==> WellFormed(run[i])
    ensures var s := After(run);
            var t := Step(s, TimerFires(at));
            && t.seat == s.seat
            && (s.change.InFlight? ==> (t.change.Idle? <==> at - s.change.since >= ROLE_CHANGE_ABSOLUTE_TIMEOUT_MS))
  {
    EveryRunKeepsRoles(run);
  }
}
