/** The bridge's handler drain: handlers enter and leave, shutdown closes it and waits for zero. */
module BridgeDrain {

  /** `published` is the watch channel's value; `live` counts the permits that exist. */
  datatype Drain = Drain(closed: bool, active: nat, published: nat, live: nat)

  const FRESH := Drain(false, 0, 0, 0)

  datatype Event = Enter | Leave | Close

  predicate Enabled(d: Drain, e: Event) {
    e.Leave? ==> d.live > 0
  }

  function Step(d: Drain, e: Event): Drain {
    match e
    case Enter => if d.closed then d else Drain(false, d.active + 1, d.active + 1, d.live + 1)
    case Leave =>
      var n := if d.active == 0 then 0 else d.active - 1;
      Drain(d.closed, n, n, if d.live == 0 then 0 else d.live - 1)
    case Close => d.(closed := true)
  }

  predicate Legal(d: Drain, es: seq<Event>)
    decreases |es|
  {
    es == [] || (Enabled(d, es[0]) && Legal(Step(d, es[0]), es[1..]))
  }

  function Run(d: Drain, es: seq<Event>): Drain
    decreases |es|
  {
    if es == [] then d else Run(Step(d, es[0]), es[1..])
  }

  lemma {:induction false} RunJoin(d: Drain, xs: seq<Event>, ys: seq<Event>)
    requires Legal(d, xs)
    ensures Legal(d, xs + ys) == Legal(Run(d, xs), ys)
    ensures Run(d, xs + ys) == Run(Run(d, xs), ys)
    decreases |xs|
  {
    if xs == [] {
      assert xs + ys == ys;
    } else {
      assert (xs + ys)[1..] == xs[1..] + ys;
      RunJoin(Step(d, xs[0]), xs[1..], ys);
    }
  }

  predicate Counted(d: Drain) {
    d.published == d.active == d.live
  }

  /** The published count is the number of live permits, and once closed it never rises. */
  lemma {:induction false} RunCounted(d: Drain, es: seq<Event>)
    requires Counted(d) && Legal(d, es)
    ensures Counted(Run(d, es))
    ensures d.closed ==> Run(d, es).closed && Run(d, es).published <= d.published
    decreases |es|
  {
    if es == [] {
    } else {
      RunCounted(Step(d, es[0]), es[1..]);
    }
  }

  lemma EnterWhileOpen(d: Drain, es: seq<Event>)
    requires !d.closed && es == [Enter]
    ensures Legal(d, es) && Run(d, es).live == d.live + 1
  {
    assert es[1..] == [];
    assert Run(Step(d, es[0]), es[1..]) == Step(d, Enter);
  }

  /** Seeing zero means that no handler is active then or ever after, exactly when the drain is closed. */
  lemma ZeroIsFinalExactly(before: seq<Event>)
    requires Legal(FRESH, before) && Run(FRESH, before).published == 0
    ensures Run(FRESH, before).closed <==>
            forall after :: Legal(Run(FRESH, before), after) ==> Run(Run(FRESH, before), after).live == 0
  {
    var d := Run(FRESH, before);
    RunCounted(FRESH, before);
    if d.closed {
      forall after | Legal(d, after)
        ensures Run(d, after).live == 0
      {
        RunCounted(d, after);
      }
    } else {
      EnterWhileOpen(d, [Enter]);
    }
  }

  /** How many handlers may enter: those that come before the drain is closed. */
  function Admitted(es: seq<Event>): nat {
    if es == [] || es[0].Close? then 0 else (if es[0].Enter? then 1 else 0) + Admitted(es[1..])
  }

  function Leaves(es: seq<Event>): nat {
    if es == [] then 0 else (if es[0].Leave? then 1 else 0) + Leaves(es[1..])
  }

  lemma {:induction false} RunTallies(d: Drain, es: seq<Event>)
    requires Counted(d) && Legal(d, es)
    ensures Run(d, es).closed <==> d.closed || Close in es
    ensures Run(d, es).live == d.live + (if d.closed then 0 else Admitted(es)) - Leaves(es)
    decreases |es|
  {
    if es == [] {
    } else {
      assert Close in es <==> es[0] == Close || Close in es[1..];
      RunTallies(Step(d, es[0]), es[1..]);
    }
  }

  /**
   In every run the published count is the handlers that entered before the first close, less those that left: after a
   close nobody enters.
   */
  lemma CountIsAdmittedLessLeft(es: seq<Event>)
    requires Legal(FRESH, es)
    ensures Run(FRESH, es).published == Admitted(es) - Leaves(es)
    ensures Run(FRESH, es).closed <==> Close in es
  {
    RunCounted(FRESH, es);
    RunTallies(FRESH, es);
  }

  /** The class. Each method but `Wait` runs under one lock; `live` is the number of permits handed out. */
  class HandlerDrain {
    var closed: bool
    var active: nat
    var published: nat
    var live: nat

    function View(): Drain
      reads this
    {
      Drain(closed, active, published, live)
    }

    constructor ()
      ensures View() == FRESH
    {
      closed, active, published, live := false, 0, 0, 0;
    }

    method TryEnter() returns (entered: bool)
      modifies this
      ensures View() == Step(old(View()), Enter)
      ensures entered == !old(closed)
    {
      if closed { return false; }
      active := active + 1;
      published := active;
      live := live + 1;
      entered := true;
    }

    /** The permit's destructor. */
    method DropPermit()
      requires live > 0
      modifies this
      ensures View() == Step(old(View()), Leave)
    {
      active := if active == 0 then 0 else active - 1;
      published := active;
      live := live - 1;
    }

    method CloseDrain()
      modifies this
      ensures View() == Step(old(View()), Close)
    {
      closed := true;
    }

    /** Any number of steps by handlers and by shutdown. */
    method Others() returns (ghost es: seq<Event>)
      modifies this
      ensures Legal(old(View()), es) && View() == Run(old(View()), es)
    {
      var n: nat :| 0 <= n;
      es := [];
      while n > 0
        invariant Legal(old(View()), es) && View() == Run(old(View()), es)
      {
        var pick: nat :| pick < 3;
        ghost var e := if pick == 0 then Enter else if pick == 1 || live == 0 then Close else Leave;
        RunJoin(old(View()), es, [e]);
        assert [e][1..] == [] && Run(View(), [e]) == Run(Step(View(), e), []);
        assert Legal(View(), [e]);
        if pick == 0 {
          var entered := TryEnter();
        } else if pick == 1 || live == 0 {
          CloseDrain();
        } else {
          DropPermit();
        }
        es, n := es + [e], n - 1;
      }
    }

    /** One loop of `wait`: look at the published count, then sleep through the others' steps. */
    method Wait(wakeups: nat) returns (done: bool, ghost es: seq<Event>)
      requires Counted(View())
      modifies this
      ensures Legal(old(View()), es) && View() == Run(old(View()), es)
      ensures if done then live == 0 else live > 0
      ensures old(live) == 0 ==> done && es == []
      ensures done && old(closed) ==> closed
    {
      es, done := [], published == 0;
      var k := wakeups;
      while !done && k > 0
        invariant Legal(old(View()), es) && View() == Run(old(View()), es)
        invariant done <==> published == 0
        invariant old(published) == 0 ==> done && es == []
        decreases k
      {
        ghost var more := Others();
        RunJoin(old(View()), es, more);
        es, done, k := es + more, published == 0, k - 1;
      }
      RunCounted(old(View()), es);
    }
  }
}
