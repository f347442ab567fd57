/** The lock-free cap on relay-tunnel sessions: one counter, added to before it is looked at. */
module TunnelSlots {

  const MAX_TUNNEL_SESSIONS := 8

  type Id = nat

  /** `counter` is the shared atomic; `decided` holds what each admission's add returned until the
      admission acts on it. */
  datatype State = State(counter: int, decided: map<Id, int>, active: set<Id>)

  const IDLE := State(0, map[], {})

  datatype Step =
    | Add(id: Id)
    | Admit(id: Id)
    | RollBack(id: Id)
    | Release(id: Id)

  predicate Fresh(s: State, id: Id) { id !in s.decided && id !in s.active }

  predicate Enabled(s: State, step: Step) {
    match step
    case Add(id) => Fresh(s, id)
    case Admit(id) => id in s.decided && s.decided[id] < MAX_TUNNEL_SESSIONS
    case RollBack(id) => id in s.decided && s.decided[id] >= MAX_TUNNEL_SESSIONS
    case Release(id) => id in s.active
  }

  function Apply(s: State, step: Step): State
    requires Enabled(s, step)
  {
    match step
    case Add(id) => State(s.counter + 1, s.decided[id := s.counter], s.active)
    case Admit(id) => State(s.counter, s.decided - {id}, s.active + {id})
    case RollBack(id) => State(s.counter - 1, s.decided - {id}, s.active)
    case Release(id) => State(s.counter - 1, s.decided, s.active - {id})
  }

  /** Any interleaving of the steps of any number of admissions and sessions. */
  ghost predicate CanRun(s: State, steps: seq<Step>)
    decreases |steps|
  {
    steps != [] ==> Enabled(s, steps[0]) && CanRun(Apply(s, steps[0]), steps[1..])
  }

  function Run(s: State, steps: seq<Step>): State
    requires CanRun(s, steps)
    decreases |steps|
  {
    if steps == [] then s else Run(Apply(s, steps[0]), steps[1..])
  }

  /** Admissions that found a slot and have not taken it yet. */
  function Reserved(s: State): set<Id> { set id | id in s.decided && s.decided[id] < MAX_TUNNEL_SESSIONS }

  /** Admissions that found none and have yet to roll their increment back. */
  function Doomed(s: State): set<Id> { set id | id in s.decided && s.decided[id] >= MAX_TUNNEL_SESSIONS }

  ghost predicate Inv(s: State) {
    && s.active !! s.decided.Keys
    && s.counter == |s.active| + |Reserved(s)| + |Doomed(s)|
    && |s.active| + |Reserved(s)| <= 8
  }

  lemma {:induction false} AddKeeps(s: State, id: Id)
    requires Inv(s) && Enabled(s, Add(id))
    ensures Inv(Apply(s, Add(id)))
  {
    var t := Apply(s, Add(id));
    assert id !in Reserved(s) && id !in Doomed(s);
    if s.counter < MAX_TUNNEL_SESSIONS {
      assert Reserved(t) == Reserved(s) + {id};
      assert Doomed(t) == Doomed(s);
      assert |Reserved(t)| == |Reserved(s)| + 1;
    } else {
      assert Doomed(t) == Doomed(s) + {id};
      assert Reserved(t) == Reserved(s);
      assert |Doomed(t)| == |Doomed(s)| + 1;
    }
  }

  lemma {:induction false} AdmitKeeps(s: State, id: Id)
    requires Inv(s) && Enabled(s, Admit(id))
    ensures Inv(Apply(s, Admit(id)))
  {
    var t := Apply(s, Admit(id));
    assert Reserved(t) == Reserved(s) - {id} && Doomed(t) == Doomed(s);
    assert id in Reserved(s);
  }

  lemma {:induction false} RollBackKeeps(s: State, id: Id)
    requires Inv(s) && Enabled(s, RollBack(id))
    ensures Inv(Apply(s, RollBack(id)))
  {
    var t := Apply(s, RollBack(id));
    assert Doomed(t) == Doomed(s) - {id} && Reserved(t) == Reserved(s);
    assert id in Doomed(s);
  }

  lemma {:induction false} ReleaseKeeps(s: State, id: Id)
    requires Inv(s) && Enabled(s, Release(id))
    ensures Inv(Apply(s, Release(id)))
  {
    var t := Apply(s, Release(id));
    assert Reserved(t) == Reserved(s) && Doomed(t) == Doomed(s);
  }

  lemma {:induction false} RunKeeps(s: State, steps: seq<Step>)
    requires Inv(s) && CanRun(s, steps)
    ensures Inv(Run(s, steps))
    decreases |steps|
  {
    if steps != [] {
      match steps[0]
      {
        case Add(id) => AddKeeps(s, id);
        case Admit(id) => AdmitKeeps(s, id);
        case RollBack(id) => RollBackKeeps(s, id);
        case Release(id) => ReleaseKeeps(s, id);
      }
      RunKeeps(Apply(s, steps[0]), steps[1..]);
    }
  }

  /** In every interleaving at most 8 sessions are active, the counter is the active sessions plus
      the admissions still in flight, so it never underflows, and it is zero exactly when no
      session is active and no admission in flight. */
  lemma {:induction false} NeverMoreThanEight(steps: seq<Step>)
    requires CanRun(IDLE, steps)
    ensures var s := Run(IDLE, steps);
      && |s.active| <= 8
      && s.counter == |s.active| + |s.decided|
      && (s.counter == 0 <==> s.active == {} && s.decided == map[])
  {
    var s := Run(IDLE, steps);
    assert Reserved(IDLE) == {} && Doomed(IDLE) == {};
    RunKeeps(IDLE, steps);
    assert s.decided.Keys == Reserved(s) + Doomed(s) && Reserved(s) !! Doomed(s);
    assert |s.decided| == |s.decided.Keys|;
    if s.decided.Keys == {} {
      assert s.decided == map[];
    }
  }

  /** An admission is refused exactly when active sessions and admissions in flight already fill
      the cap, refused ones included. */
  lemma {:induction false} RefusedIff(s: State, id: Id)
    requires Inv(s) && Enabled(s, Add(id))
    ensures Enabled(Apply(s, Add(id)), RollBack(id)) <==>
      |s.active| + |Reserved(s)| + |Doomed(s)| >= 8
  {
  }

  // ----- A refusal below the cap -----

  function Fill(n: nat): seq<Step> { if n == 0 then [] else Fill(n - 1) + [Add(n), Admit(n)] }

  lemma {:induction false} RunConcat(s: State, a: seq<Step>, b: seq<Step>)
    requires CanRun(s, a) && CanRun(Run(s, a), b)
    ensures CanRun(s, a + b) && Run(s, a + b) == Run(Run(s, a), b)
    decreases |a|
  {
    if a == [] {
      assert a + b == b;
    } else {
      assert (a + b)[0] == a[0] && (a + b)[1..] == a[1..] + b;
      RunConcat(Apply(s, a[0]), a[1..], b);
    }
  }

  function FirstIds(n: nat): set<Id> { if n == 0 then {} else FirstIds(n - 1) + {n} }

  lemma {:induction false} FirstIdsAre(n: nat)
    ensures (forall id :: id in FirstIds(n) <==> 1 <= id <= n) && |FirstIds(n)| == n
    decreases n
  {
    if n > 0 {
      FirstIdsAre(n - 1);
    }
  }

  lemma {:induction false} FillFills(n: nat)
    requires n <= MAX_TUNNEL_SESSIONS
    ensures CanRun(IDLE, Fill(n)) && Run(IDLE, Fill(n)) == State(n, map[], FirstIds(n))
    decreases n
  {
    if n > 0 {
      FillFills(n - 1);
      FirstIdsAre(n - 1);
      AddAndAdmit(State(n - 1, map[], FirstIds(n - 1)), n);
      RunConcat(IDLE, Fill(n - 1), [Add(n), Admit(n)]);
    }
  }

  lemma {:induction false} AddAndAdmit(s: State, id: Id)
    requires s.decided == map[] && id !in s.active && s.counter < MAX_TUNNEL_SESSIONS
    ensures CanRun(s, [Add(id), Admit(id)])
    ensures Run(s, [Add(id), Admit(id)]) == State(s.counter + 1, map[], s.active + {id})
  {
    var two := [Add(id), Admit(id)];
    var t := Apply(s, Add(id));
    var u := Apply(t, Admit(id));
    assert u.decided == map[];
    assert two[1..] == [Admit(id)] && two[1..][1..] == [];
    assert CanRun(u, []) && Run(u, []) == u;
    assert CanRun(t, two[1..]) && Run(t, two[1..]) == u;
  }

  /** Eight sessions can be active at once. */
  lemma {:induction false} EightFit()
    ensures CanRun(IDLE, Fill(8)) && |Run(IDLE, Fill(8)).active| == 8
  {
    FillFills(8);
    FirstIdsAre(8);
  }

  /** Only the upper bound holds: from any full state, a refused admission that has not rolled back
      yet makes the next one be refused although a session has ended in between. */
  lemma {:induction false} RefusesBelowTheCap(s: State, refused: Id, ended: Id, next: Id)
    requires Inv(s) && |s.active| == 8 && ended in s.active
    requires Fresh(s, refused) && Fresh(s, next) && refused != next
    ensures var t := Apply(Apply(s, Add(refused)), Release(ended));
      && Enabled(t, Add(next)) && |t.active| == 7
      && Enabled(Apply(t, Add(next)), RollBack(next))
  {
    AddKeeps(s, refused);
    var u := Apply(s, Add(refused));
    ReleaseKeeps(u, ended);
  }

  lemma {:induction false} ThreeSteps(s: State, a: Step, b: Step, c: Step)
    requires Enabled(s, a) && Enabled(Apply(s, a), b) && Enabled(Apply(Apply(s, a), b), c)
    ensures CanRun(s, [a, b, c]) && Run(s, [a, b, c]) == Apply(Apply(Apply(s, a), b), c)
  {
    var t, u := Apply(s, a), Apply(Apply(s, a), b);
    var v := Apply(u, c);
    assert CanRun(v, []) && Run(v, []) == v;
    assert [c][1..] == [] && CanRun(u, [c]) && Run(u, [c]) == v;
    assert [b, c][1..] == [c] && CanRun(t, [b, c]) && Run(t, [b, c]) == v;
    assert [a, b, c][1..] == [b, c];
  }

  /** Such a refusal from the start: eight sessions, a ninth admission, a session ended, and the tenth
      admission is turned away with seven active. */
  lemma {:induction false} RefusedWithASlotFree()
    ensures var steps := Fill(8) + [Add(9), Release(1), Add(10)];
      CanRun(IDLE, steps) && |Run(IDLE, steps).active| == 7 && Enabled(Run(IDLE, steps), RollBack(10))
  {
    FillFills(8);
    FirstIdsAre(8);
    EightFit();
    var s := Run(IDLE, Fill(8));
    assert Reserved(s) == {} && Doomed(s) == {};
    RefusesBelowTheCap(s, 9, 1, 10);
    ThreeSteps(s, Add(9), Release(1), Add(10));
    RunConcat(IDLE, Fill(8), [Add(9), Release(1), Add(10)]);
  }
}
