/** Connecting to the relay: deadlines of one socket, and the redial loop around it. Times are
    milliseconds; every step says how long it took, so the clock never runs backwards. */
module RelayControl {
  import opened Sequences
  import opened Wrappers

  const MIN_BACKOFF := 5_000
  const MAX_BACKOFF := 60_000
  const PING_INTERVAL := 10_000
  const LIVENESS_TIMEOUT := 25_000
  const CONNECT_TIMEOUT := 45_000
  const MAX_SOCKET_AGE := 600_000

  // ----- One socket -----

  datatype RoomEvent = Opened | Closed | Failed | Message

  datatype Arrival = Arrival(wait: nat, event: RoomEvent)

  /** One round of the socket loop: whether the channel is to stop, what arrives, the time until each of
      the checks, and the pause, which a shutdown can end. */
  datatype Poll = Poll(
    stop: bool,
    arrivals: seq<Arrival>,
    toPing: nat,
    toSend: nat,
    toSilence: nat,
    toAge: nat,
    shutdown: bool,
    pause: nat)

  datatype SocketEnd = Recycled | Ended(isOpen: bool)

  datatype Socket = Socket(isOpen: bool, started: nat, lastEvent: nat, lastPing: nat, pings: seq<nat>, clock: nat)

  function Dialed(now: nat): Socket { Socket(false, now, now, now, [], now) }

  function Later(s: Socket, wait: nat): Socket { s.(clock := s.clock + wait) }

  /** Take the events of a round; a close or an error ends the socket. */
  function Drained(s: Socket, arrivals: seq<Arrival>): (Socket, Option<SocketEnd>)
    decreases |arrivals|
  {
    if arrivals == [] then (s, None)
    else
      var now := s.clock + arrivals[0].wait;
      var t := s.(clock := now, lastEvent := now);
      match arrivals[0].event
      case Opened => Drained(t.(isOpen := true), arrivals[1..])
      case Message => Drained(t, arrivals[1..])
      case _ => (t, Some(Ended(t.isOpen)))
  }

  function Deadline(s: Socket): nat { if s.isOpen then LIVENESS_TIMEOUT else CONNECT_TIMEOUT }

  predicate Silent(s: Socket) { s.clock - s.lastEvent >= Deadline(s) }

  predicate Old(s: Socket) { s.isOpen && s.clock - s.started >= MAX_SOCKET_AGE }

  /** The ping falls due on one reading of the clock and is stamped by a later one. */
  function Pinged(s: Socket, toSend: nat): Socket {
    if s.isOpen && s.clock - s.lastPing >= PING_INTERVAL then
      var sent := s.clock + toSend;
      s.(clock := sent, lastPing := sent, pings := s.pings + [sent])
    else s
  }

  /** The three checks at the end of a round. */
  function Checked(s: Socket, p: Poll): (Socket, Option<SocketEnd>) {
    var u := Later(Pinged(Later(s, p.toPing), p.toSend), p.toSilence);
    var v := Later(u, p.toAge);
    if Silent(u) then (u, Some(Ended(u.isOpen)))
    else if Old(v) then (v, Some(Recycled))
    else if p.shutdown then (v, Some(Ended(v.isOpen)))
    else (Later(v, p.pause), None)
  }

  function Round(s: Socket, p: Poll): (Socket, Option<SocketEnd>) {
    if p.stop then (s, Some(Ended(s.isOpen)))
    else
      var (t, end) := Drained(s, p.arrivals);
      if end.Some? then (t, end) else Checked(t, p)
  }

  /** The socket after its rounds, and how it ended if it did. */
  function Served(s: Socket, polls: seq<Poll>): (Socket, Option<SocketEnd>)
    decreases |polls|
  {
    if polls == [] then (s, None)
    else
      var (t, end) := Round(s, polls[0]);
      if end.Some? then (t, end) else Served(t, polls[1..])
  }

  method ServeRoomSocket(now: nat, polls: seq<Poll>) returns (s: Socket, end: Option<SocketEnd>)
    ensures (s, end) == Served(Dialed(now), polls)
  {
    s, end := Dialed(now), None;
    for i := 0 to |polls|
      invariant end == None && Served(Dialed(now), polls) == Served(s, polls[i..])
    {
      var p := polls[i];
      assert polls[i..][0] == p && polls[i..][1..] == polls[i + 1..];
      if p.stop {
        return s, Some(Ended(s.isOpen));
      }
      s, end := Drain(s, p.arrivals);
      if end.Some? {
        return;
      }
      s := Later(s, p.toPing);
      if s.isOpen && s.clock - s.lastPing >= PING_INTERVAL {
        s := Later(s, p.toSend);
        s := s.(pings := s.pings + [s.clock]);
        s := s.(lastPing := s.clock);
      }
      s := Later(s, p.toSilence);
      if s.clock - s.lastEvent >= (if s.isOpen then LIVENESS_TIMEOUT else CONNECT_TIMEOUT) {
        return s, Some(Ended(s.isOpen));
      }
      s := Later(s, p.toAge);
      if s.isOpen && s.clock - s.started >= MAX_SOCKET_AGE {
        return s, Some(Recycled);
      }
      if p.shutdown {
        return s, Some(Ended(s.isOpen));
      }
      s := Later(s, p.pause);
    }
  }

  method Drain(s: Socket, arrivals: seq<Arrival>) returns (t: Socket, end: Option<SocketEnd>)
    ensures (t, end) == Drained(s, arrivals)
  {
    t := s;
    for i := 0 to |arrivals|
      invariant Drained(t, arrivals[i..]) == Drained(s, arrivals)
    {
      assert arrivals[i..][1..] == arrivals[i + 1..];
      t := Later(t, arrivals[i].wait);
      t := t.(lastEvent := t.clock);
      match arrivals[i].event
      case Opened => t := t.(isOpen := true);
      case Message =>
      case _ => return t, Some(Ended(t.isOpen));
    }
    end := None;
  }

  // ----- What the deadlines keep -----

  /** Pings at least ten seconds apart, from the dial on. */
  ghost predicate Spaced(pings: seq<nat>, started: nat, lastPing: nat) {
    && (pings == [] ==> lastPing == started)
    && (pings != [] ==> pings[|pings| - 1] == lastPing && pings[0] >= started + 10_000)
    && (forall i :: 0 < i < |pings| ==> pings[i] >= pings[i - 1] + 10_000)
  }

  /** No stamp is in the future, and the pings are spaced and none before the room is open. */
  ghost predicate Paced(s: Socket) {
    && s.started <= s.lastEvent <= s.clock && s.started <= s.lastPing <= s.clock
    && Spaced(s.pings, s.started, s.lastPing) && (!s.isOpen ==> s.pings == [])
  }

  /** At the checks of its last round the socket was neither silent nor old, and no ping was due. */
  ghost predicate Alive(s: Socket, last: Poll) {
    && s.clock < s.lastEvent + (if s.isOpen then 25_000 else 45_000) + last.toAge + last.pause
    && (s.isOpen ==> s.clock < s.started + 600_000 + last.pause)
    && (s.isOpen ==> s.clock < s.lastPing + 10_000 + last.toSilence + last.toAge + last.pause)
  }

  /** What every stretch of serving keeps, and what its ending says. */
  ghost predicate Keeps(s: Socket, t: Socket, end: Option<SocketEnd>) {
    && Paced(t) && t.started == s.started && t.clock >= s.clock
    && (end == Some(Recycled) ==> t.isOpen && t.clock >= t.started + 600_000)
    && (end.Some? && end.value.Ended? ==> end.value.isOpen == t.isOpen)
  }

  /** The event ends the socket. */
  predicate Ending(a: Arrival) { a.event == Closed || a.event == RoomEvent.Failed }

  function Waits(arrivals: seq<Arrival>): nat { if arrivals == [] then 0 else arrivals[0].wait + Waits(arrivals[1..]) }

  predicate Opens(arrivals: seq<Arrival>) { exists a :: a in arrivals && a.event == Opened }

  lemma {:induction false} HeardOne(arrivals: seq<Arrival>, n: nat)
    requires 0 < n <= |arrivals|
    ensures arrivals[..n][1..] == arrivals[1..][..n - 1] && Waits(arrivals[..n]) ==
      arrivals[0].wait + Waits(arrivals[1..][..n - 1])
    ensures Opens(arrivals[..n]) <==> arrivals[0].event == Opened || Opens(arrivals[1..][..n - 1])
  {
    assert arrivals[..n][1..] == arrivals[1..][..n - 1];
    assert arrivals[..n] == [arrivals[0]] + arrivals[1..][..n - 1];
  }

  /** Every event of a round counts as heard when it comes, and the room is open once one says so; the first
      close or error ends the socket, and what follows it is not read. */
  lemma {:induction false} EventsAreHeard(s: Socket, arrivals: seq<Arrival>, n: nat)
    requires n <= |arrivals| && (forall i :: 0 <= i < |arrivals| && Ending(arrivals[i]) ==> n <= i + 1)
    requires n < |arrivals| ==> n > 0 && Ending(arrivals[n - 1])
    ensures var (t, end) := Drained(s, arrivals);
      && t.clock == s.clock + Waits(arrivals[..n]) && t.lastEvent == (if n == 0 then s.lastEvent else t.clock)
      && (t.isOpen <==> s.isOpen || Opens(arrivals[..n]))
      && t.started == s.started && t.lastPing == s.lastPing && t.pings == s.pings
      && end == if n > 0 && Ending(arrivals[n - 1]) then Some(Ended(t.isOpen)) else None
    decreases |arrivals|
  {
    if arrivals != [] {
      HeardOne(arrivals, n);
      var now := s.clock + arrivals[0].wait;
      var t := s.(clock := now, lastEvent := now);
      assert arrivals[1..][..0] == [];
      if !Ending(arrivals[0]) {
        assert forall i :: 0 <= i < |arrivals| - 1 ==> arrivals[1..][i] == arrivals[i + 1];
        EventsAreHeard(t.(isOpen := t.isOpen || arrivals[0].event == Opened), arrivals[1..], n - 1);
      }
    }
  }

  lemma {:induction false} DrainedKeeps(s: Socket, arrivals: seq<Arrival>)
    requires Paced(s)
    ensures var (t, end) := Drained(s, arrivals); Keeps(s, t, end) && end != Some(Recycled)
    decreases |arrivals|
  {
    if arrivals != [] {
      var now := s.clock + arrivals[0].wait;
      var t := s.(clock := now, lastEvent := now);
      match arrivals[0].event
      case Opened => DrainedKeeps(t.(isOpen := true), arrivals[1..]);
      case Message => DrainedKeeps(t, arrivals[1..]);
      case _ =>
    }
  }

  lemma {:induction false} OneMorePing(pings: seq<nat>, started: nat, lastPing: nat, sent: nat)
    requires Spaced(pings, started, lastPing) && sent >= lastPing + PING_INTERVAL
    ensures Spaced(pings + [sent], started, sent)
  {
  }

  lemma {:induction false} PingedKeeps(s: Socket, toSend: nat)
    requires Paced(s)
    ensures var t := Pinged(s, toSend);
      && Paced(t) && t.clock >= s.clock
      && t.isOpen == s.isOpen && t.started == s.started && t.lastEvent == s.lastEvent
  {
    if s.clock - s.lastPing >= PING_INTERVAL {
      OneMorePing(s.pings, s.started, s.lastPing, s.clock + toSend);
    }
  }

  /** After the check no ping is due. */
  lemma {:induction false} PingedInTime(s: Socket, toSend: nat)
    requires Paced(s)
    ensures var t := Pinged(s, toSend); t.isOpen ==> t.clock < t.lastPing + 10_000
  {
  }

  lemma {:induction false} CheckedKeeps(s: Socket, p: Poll)
    requires Paced(s)
    ensures var (t, end) := Checked(s, p); Keeps(s, t, end) && (end.None? ==> Alive(t, p))
  {
    PingedKeeps(Later(s, p.toPing), p.toSend);
    PingedInTime(Later(s, p.toPing), p.toSend);
  }

  /** A round that ends the socket has a reason: the stop, a close or an error, silence past its deadline, age,
      or the shutdown. */
  lemma {:induction false} EndsForAReason(s: Socket, p: Poll)
    requires Round(s, p).1.Some?
    ensures var (t, end) := Round(s, p);
      || p.stop || p.shutdown || (exists a :: a in p.arrivals && Ending(a))
      || t.clock >= t.lastEvent + (if t.isOpen then 25_000 else 45_000)
      || (end == Some(Recycled) && t.isOpen && t.clock >= t.started + 600_000)
  {
    if !p.stop && Drained(s, p.arrivals).1.Some? {
      EndedByAnEvent(s, p.arrivals);
    }
  }

  lemma {:induction false} EndedByAnEvent(s: Socket, arrivals: seq<Arrival>)
    requires Drained(s, arrivals).1.Some?
    ensures exists a :: a in arrivals && Ending(a)
    decreases |arrivals|
  {
    var now := s.clock + arrivals[0].wait;
    var t := s.(clock := now, lastEvent := now);
    if Ending(arrivals[0]) {
      assert arrivals[0] in arrivals;
    } else {
      EndedByAnEvent(t.(isOpen := t.isOpen || arrivals[0].event == Opened), arrivals[1..]);
    }
  }

  lemma {:induction false} RoundKeeps(s: Socket, p: Poll)
    requires Paced(s)
    ensures var (t, end) := Round(s, p); Keeps(s, t, end) && (end.None? ==> Alive(t, p))
  {
    DrainedKeeps(s, p.arrivals);
    CheckedKeeps(Drained(s, p.arrivals).0, p);
  }

  /** A socket outlives silence and age only within the deadlines, is recycled only open and, by the
      clock it ends on, ten minutes old, and pings at most every ten seconds, and whenever ten have passed. */
  lemma {:induction false} ServedKeepsDeadlines(s: Socket, polls: seq<Poll>)
    requires Paced(s)
    ensures var (t, end) := Served(s, polls);
      Keeps(s, t, end) && (end.None? && polls != [] ==> Alive(t, polls[|polls| - 1]))
    decreases |polls|
  {
    if polls != [] {
      RoundKeeps(s, polls[0]);
      ServedKeepsDeadlines(Round(s, polls[0]).0, polls[1..]);
    }
  }

  // ----- Redialling -----

  /** What a dial leads to: a socket and its rounds, or that connecting fails after some time. */
  datatype Dial = Connected(polls: seq<Poll>) | Refused(took: nat)

  /** One pass of the loop: its two stop checks, the dial, and the sleep, which a shutdown can end and
      which can last longer than asked. */
  datatype Turn = Turn(stopBefore: bool, dial: Dial, stopAfter: bool, shutdown: bool, late: nat)

  function NextBackoff(backoff: nat): nat { if backoff * 2 < MAX_BACKOFF then backoff * 2 else MAX_BACKOFF }

  /** When the next pass starts and with which backoff, unless the loop ends. */
  function Slept(now: nat, backoff: nat, t: Turn): Option<(nat, nat)> {
    if t.stopAfter || t.shutdown then None else Some((now + backoff + t.late, NextBackoff(backoff)))
  }

  /** The same after a dial at `now`; nothing follows a socket that is still being served. */
  function Next(now: nat, backoff: nat, t: Turn): Option<(nat, nat)> {
    match t.dial
    case Refused(took) => Slept(now + took, backoff, t)
    case Connected(polls) =>
      var (s, end) := Served(Dialed(now), polls);
      match end
      case None => None
      case Some(Recycled) => Some((s.clock, MIN_BACKOFF))
      case Some(Ended(isOpen)) => Slept(s.clock, if isOpen then MIN_BACKOFF else backoff, t)
  }

  /** When each dial is made. */
  function Dials(now: nat, backoff: nat, turns: seq<Turn>): seq<nat>
    decreases |turns|
  {
    if turns == [] || turns[0].stopBefore then []
    else
      match Next(now, backoff, turns[0])
      case None => [now]
      case Some((later, next)) => [now] + Dials(later, next, turns[1..])
  }

  /** When and with which backoff the loop goes on after all these passes, if it does. */
  function After(now: nat, backoff: nat, turns: seq<Turn>): Option<(nat, nat)>
    decreases |turns|
  {
    if turns == [] then Some((now, backoff))
    else if turns[0].stopBefore then None
    else
      match Next(now, backoff, turns[0])
      case None => None
      case Some((later, next)) => After(later, next, turns[1..])
  }

  method Run(start: nat, turns: seq<Turn>) returns (dials: seq<nat>, backoff: nat)
    ensures dials == Dials(start, MIN_BACKOFF, turns)
    ensures After(start, MIN_BACKOFF, turns).Some? ==> backoff == After(start, MIN_BACKOFF, turns).value.1
  {
    backoff := MIN_BACKOFF;
    var now := start;
    dials := [];
    for i := 0 to |turns|
      invariant dials + Dials(now, backoff, turns[i..]) == Dials(start, MIN_BACKOFF, turns)
      invariant After(now, backoff, turns[i..]) == After(start, MIN_BACKOFF, turns)
    {
      var t := turns[i];
      assert turns[i..][0] == t && turns[i..][1..] == turns[i + 1..];
      if t.stopBefore {
        return;
      }
      ghost var next := Next(now, backoff, t);
      if next.Some? {
        Shift(dials, now, Dials(next.value.0, next.value.1, turns[i + 1..]));
      }
      dials := dials + [now];
      match t.dial {
        case Connected(polls) =>
          var s, end := ServeRoomSocket(now, polls);
          now := s.clock;
          match end {
            case None => return;
            case Some(Recycled) =>
              backoff := MIN_BACKOFF;
              continue;
            case Some(Ended(isOpen)) =>
              if isOpen {
                backoff := MIN_BACKOFF;
              }
          }
        case Refused(took) => now := now + took;
      }
      if t.stopAfter {
        return;
      }
      if t.shutdown {
        return;
      }
      now := now + backoff + t.late;
      backoff := if backoff * 2 < MAX_BACKOFF then backoff * 2 else MAX_BACKOFF;
    }
  }

  lemma {:induction false} NextIsLater(now: nat, backoff: nat, t: Turn)
    requires 5_000 <= backoff <= 60_000 && Next(now, backoff, t).Some?
    ensures var (later, next) := Next(now, backoff, t).value; later >= now + 5_000 && 5_000 <= next <= 60_000
  {
    if t.dial.Connected? {
      ServedKeepsDeadlines(Dialed(now), t.dial.polls);
    }
  }

  /** After a socket that was open the next dial comes after 5 seconds, or at once when it was recycled, and the
      backoff starts again. */
  lemma {:induction false} OpenSocketsResetTheBackoff(now: nat, backoff: nat, t: Turn)
    requires t.dial.Connected? && Next(now, backoff, t).Some?
    ensures var (s, end) := Served(Dialed(now), t.dial.polls);
      var (later, next) := Next(now, backoff, t).value;
      && (end == Some(Recycled) ==> later == s.clock && next == 5_000)
      && (end == Some(Ended(true)) ==> later == s.clock + 5_000 + t.late && next == 10_000)
  {
  }

  /** Whatever the rounds of the sockets bring, the backoff stays between 5 and 60 seconds and two dials
      are never less than 5 seconds apart, recycled sockets included. */
  lemma {:induction false} DialsAreSpaced(now: nat, backoff: nat, turns: seq<Turn>)
    requires 5_000 <= backoff <= 60_000
    ensures var d := Dials(now, backoff, turns);
      |d| <= |turns| && (d != [] ==> d[0] == now) && forall i :: 0 < i < |d| ==> d[i] >= d[i - 1] + 5_000
    ensures var end := After(now, backoff, turns); end.Some? ==> 5_000 <= end.value.1 <= 60_000
    decreases |turns|
  {
    if turns != [] && Next(now, backoff, turns[0]).Some? {
      var (later, next) := Next(now, backoff, turns[0]).value;
      NextIsLater(now, backoff, turns[0]);
      DialsAreSpaced(later, next, turns[1..]);
    }
  }

  function Doubled(backoff: nat, k: nat): nat { if k == 0 then backoff else 2 * Doubled(backoff, k - 1) }

  function Least(a: nat, b: nat): nat { if a < b then a else b }

  lemma {:induction false} DoubledFirst(backoff: nat, k: nat)
    requires k > 0
    ensures Doubled(backoff, k) == Doubled(2 * backoff, k - 1)
    decreases k
  {
    if k > 1 {
      DoubledFirst(backoff, k - 1);
    }
  }

  lemma {:induction false} DoubledGrows(backoff: nat, k: nat)
    ensures Doubled(backoff, k) >= backoff
    decreases k
  {
    if k > 0 {
      DoubledGrows(backoff, k - 1);
    }
  }

  predicate NeverOpens(arrivals: seq<Arrival>) { forall a :: a in arrivals ==> a.event != Opened }

  /** Connecting fails, or no socket event says that the room is open. */
  predicate Fails(t: Turn) { t.dial.Connected? ==> forall p :: p in t.dial.polls ==> NeverOpens(p.arrivals) }

  lemma {:induction false} DrainedStaysShut(s: Socket, arrivals: seq<Arrival>)
    requires !s.isOpen && NeverOpens(arrivals)
    ensures var (t, end) := Drained(s, arrivals); !t.isOpen && (end.Some? ==> end.value == Ended(false))
    decreases |arrivals|
  {
    if arrivals != [] {
      var now := s.clock + arrivals[0].wait;
      assert arrivals[0] in arrivals;
      DrainedStaysShut(s.(clock := now, lastEvent := now), arrivals[1..]);
    }
  }

  lemma {:induction false} ServedStaysShut(s: Socket, polls: seq<Poll>)
    requires !s.isOpen && forall p :: p in polls ==> NeverOpens(p.arrivals)
    ensures var (t, end) := Served(s, polls); end.Some? ==> end.value == Ended(false)
    decreases |polls|
  {
    if polls != [] {
      assert polls[0] in polls;
      DrainedStaysShut(s, polls[0].arrivals);
      var (t, end) := Round(s, polls[0]);
      if end.None? {
        ServedStaysShut(t, polls[1..]);
      }
    }
  }

  lemma {:induction false} FailureDoubles(now: nat, backoff: nat, t: Turn)
    requires Fails(t) && Next(now, backoff, t).Some?
    ensures Next(now, backoff, t).value.1 == NextBackoff(backoff)
  {
    match t.dial
    case Refused(took) =>
    case Connected(polls) =>
      ServedStaysShut(Dialed(now), polls);
      assert Served(Dialed(now), polls).1 == Some(Ended(false));
  }

  /** After any number of dials in a row that never open, the backoff has doubled that often, up to
      a minute. */
  lemma {:induction false} FailuresDoubleTheBackoff(now: nat, backoff: nat, turns: seq<Turn>)
    requires 0 < backoff <= 60_000 && forall t :: t in turns ==> Fails(t)
    requires After(now, backoff, turns).Some?
    ensures After(now, backoff, turns).value.1 == Least(60_000, Doubled(backoff, |turns|))
    decreases |turns|
  {
    if turns != [] {
      var t := turns[0];
      assert t in turns;
      FailureDoubles(now, backoff, t);
      var (later, next) := Next(now, backoff, t).value;
      FailuresDoubleTheBackoff(later, next, turns[1..]);
      DoubledFirst(backoff, |turns|);
      DoubledGrows(MAX_BACKOFF, |turns| - 1);
      if next == MAX_BACKOFF {
        DoublesPast(MAX_BACKOFF, 2 * backoff, |turns| - 1);
      }
    }
  }

  lemma {:induction false} FailureWaits(now: nat, backoff: nat, t: Turn)
    requires Fails(t) && Next(now, backoff, t).Some?
    ensures Next(now, backoff, t).value.0 >= now + backoff
  {
    match t.dial
    case Refused(took) =>
    case Connected(polls) =>
      ServedStaysShut(Dialed(now), polls);
      ServedKeepsDeadlines(Dialed(now), polls);
  }

  /** And each dial after such a one waits out the backoff reached by then. */
  lemma {:induction false} FailedDialsWait(now: nat, backoff: nat, turns: seq<Turn>, i: nat)
    requires 0 < backoff <= 60_000 && forall t :: t in turns ==> Fails(t)
    requires 0 < i < |Dials(now, backoff, turns)|
    ensures var d := Dials(now, backoff, turns); d[i] >= d[i - 1] + Least(60_000, Doubled(backoff, i - 1))
    decreases |turns|
  {
    var t := turns[0];
    assert t in turns && Next(now, backoff, t).Some?;
    FailureDoubles(now, backoff, t);
    FailureWaits(now, backoff, t);
    var (later, next) := Next(now, backoff, t).value;
    var d := Dials(later, next, turns[1..]);
    assert Dials(now, backoff, turns) == [now] + d;
    if i == 1 {
      DialsStartNow(later, next, turns[1..]);
    } else {
      FailedDialsWait(later, next, turns[1..], i - 1);
      DoubledFirst(backoff, i - 1);
      DoubledGrows(60_000, i - 2);
      if next == 60_000 {
        DoublesPast(60_000, 2 * backoff, i - 2);
      }
    }
  }

  lemma {:induction false} DialsStartNow(now: nat, backoff: nat, turns: seq<Turn>)
    requires Dials(now, backoff, turns) != []
    ensures Dials(now, backoff, turns)[0] == now
  {
  }

  lemma {:induction false} DoublesPast(a: nat, b: nat, k: nat)
    requires a <= b
    ensures Doubled(a, k) <= Doubled(b, k)
    decreases k
  {
    if k > 0 {
      DoublesPast(a, b, k - 1);
    }
  }
}
