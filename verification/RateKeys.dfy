/** The text keys behind the limiter's slots: a kind, an id or address, a colon and an
    event name. Event names and addresses hold colons of their own. */
module RateKeys {

  const COLON: char := ':'

  function SocketKey(socket: string, event: string): string {
    socket + [COLON] + event
  }

  /** `key.split(':')[0]`. */
  function FirstPart(key: string): (r: string)
    ensures COLON !in r && r <= key
  {
    if key == [] || key[0] == COLON then [] else [key[0]] + FirstPart(key[1..])
  }

  lemma {:induction false} FirstPartOfKey(socket: string, event: string)
    requires COLON !in socket
    ensures FirstPart(SocketKey(socket, event)) == socket
  {
    if socket == [] {
      assert SocketKey(socket, event)[0] == COLON;
    } else {
      FirstPartOfKey(socket[1..], event);
      assert SocketKey(socket, event)[1..] == SocketKey(socket[1..], event);
    }
  }

  /** The sweep finds the socket of a key again exactly when the id holds no colon. */
  lemma SocketIsRecoveredIff(socket: string, event: string)
    ensures FirstPart(SocketKey(socket, event)) == socket <==> COLON !in socket
  {
    if COLON !in socket {
      FirstPartOfKey(socket, event);
    }
  }

  // ---- One map, one key per name and event ----

  const SOCKET: string := ""
  const SESSION: string := "session:"
  const ADDRESS: string := "ip:"

  /** The keys of one map all begin with its kind. */
  function KeyOf(kind: string, name: string, event: string): string {
    kind + name + [COLON] + event
  }

  /** One event name is what follows a colon in the other. */
  ghost predicate EndsIn(event: string, other: string) {
    exists x: string :: event == x + [COLON] + other
  }

  lemma LongerNameShorterEvent(kind: string, a: string, e: string, b: string, f: string)
    requires KeyOf(kind, a, e) == KeyOf(kind, b, f) && |a| < |b|
    ensures EndsIn(e, f)
  {
    var key, n := KeyOf(kind, a, e), |kind|;
    var x := b[|a| + 1..];
    assert key[n + |a| + 1..] == e && key[n + |b| + 1..] == f;
    assert key[n + |a| + 1..n + |b|] == x && key[n + |b|] == COLON;
    assert e == x + [COLON] + f;
  }

  lemma SameLengthSameKey(kind: string, a: string, e: string, b: string, f: string)
    requires KeyOf(kind, a, e) == KeyOf(kind, b, f) && |a| == |b|
    ensures a == b && e == f
  {
    var key, n, m := KeyOf(kind, a, e), |kind|, |kind| + |a|;
    assert key[n..m] == a && KeyOf(kind, b, f)[n..m] == b;
    assert key[m + 1..] == e && KeyOf(kind, b, f)[m + 1..] == f;
  }

  lemma MeetingKeys(kind: string, a: string, e: string, b: string, f: string)
    requires KeyOf(kind, a, e) == KeyOf(kind, b, f)
    ensures e == f || EndsIn(e, f) || EndsIn(f, e)
  {
    if |a| < |b| {
      LongerNameShorterEvent(kind, a, e, b, f);
    } else if |b| < |a| {
      LongerNameShorterEvent(kind, b, f, a, e);
    } else {
      SameLengthSameKey(kind, a, e, b, f);
    }
  }

  lemma EndingKeysMeet(kind: string, e: string, f: string)
    requires EndsIn(e, f)
    ensures exists b :: KeyOf(kind, [], e) == KeyOf(kind, b, f)
  {
    var x: string :| e == x + [COLON] + f;
    assert KeyOf(kind, [], e) == KeyOf(kind, [COLON] + x, f);
  }

  /** Whatever the names, the keys of two events never meet exactly when neither event
      ends in the other. */
  lemma KeysNeverMeetIff(kind: string, e: string, f: string)
    requires e != f
    ensures (forall a, b :: KeyOf(kind, a, e) != KeyOf(kind, b, f)) <==> !EndsIn(e, f) && !EndsIn(f, e)
  {
    forall a, b | KeyOf(kind, a, e) == KeyOf(kind, b, f) ensures EndsIn(e, f) || EndsIn(f, e) {
      MeetingKeys(kind, a, e, b, f);
    }
    if EndsIn(e, f) {
      EndingKeysMeet(kind, e, f);
    } else if EndsIn(f, e) {
      EndingKeysMeet(kind, f, e);
    }
  }

  /** And the keys of one event are one to a name. */
  lemma OneKeyPerName(kind: string, a: string, b: string, e: string)
    requires KeyOf(kind, a, e) == KeyOf(kind, b, e)
    ensures a == b
  {
    assert |KeyOf(kind, a, e)| - |KeyOf(kind, b, e)| == |a| - |b|;
    SameLengthSameKey(kind, a, e, b, e);
  }

  /** A socket id's key in the terms of the sweep. */
  lemma SocketKeyIsKeyOf(socket: string, event: string)
    ensures KeyOf(SOCKET, socket, event) == SocketKey(socket, event)
  {
  }
}
