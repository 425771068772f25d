/** Dispatch of connections over the worker loops of a running pool, by a counter that wraps
    at 64 bits. */
module ThreadPool {
  import opened Bytes

  const TWO_TO_64: nat := 0x1_0000_0000_0000_0000

  type int64 = n: int | -0x8000_0000_0000_0000 <= n < 0x8000_0000_0000_0000

  type uint64 = n: int | 0 <= n < TWO_TO_64

  function ToInt64(x: int): int64 {
    var u := x % TWO_TO_64;
    if u < 0x8000_0000_0000_0000 then u else u - TWO_TO_64
  }

  function ToUInt64(x: int): uint64 {
    x % TWO_TO_64
  }

  datatype Status = NotRunning | Running

  /** A pool. Loops are named by numbers; worker `i` runs `threads[i]`. */
  class EventLoopThreadPool {
    const baseLoop: nat
    var status: Status
    var threads: seq<nat>
    var next: int64

    constructor (baseLoop: nat)
      ensures this.baseLoop == baseLoop && status == NotRunning && threads == [] && Ticket() == 0
    {
      this.baseLoop := baseLoop;
      status := NotRunning;
      threads := [];
      next := 0;
    }

    /** How many times a worker was asked for, as far as the counter can tell. */
    function Ticket(): uint64
      reads this`next
    {
      ToUInt64(next)
    }

    /** The remainder is taken of the counter read as unsigned, since the number of threads
        is. */
    method GetNextLoop() returns (loop: nat)
      modifies this`next
      ensures status != Running || threads == [] ==> loop == baseLoop && Ticket() == old(Ticket())
      ensures status == Running && threads != [] ==>
                loop == threads[Choice(old(Ticket()), |threads|)] && Ticket() == (old(Ticket()) + 1) % TWO_TO_64
    {
      loop := baseLoop;
      if status == Running && |threads| != 0 {
        var i := next;
        TicketStep(i);
        next := ToInt64(next + 1);
        var index := ToUInt64(i) % |threads|;
        loop := threads[index];
      }
    }

    /** Calls in a row, as many as asked for. Of a pool whose loops are all different, each is
        given out as often as `Chosen` counts, and before the counter wraps any two equally
        often, give or take one. */
    method Dispatch(k: nat) returns (loops: seq<nat>)
      requires status == Running && threads != []
      modifies this`next
      ensures |loops| == k
      ensures forall i :: 0 <= i < k ==> loops[i] == threads[Choice(old(Ticket()) + i, |threads|)]
      ensures Different(threads) ==>
                forall w :: 0 <= w < |threads| ==> multiset(loops)[threads[w]] == Chosen(old(Ticket()), k, |threads|, w)
      ensures Different(threads) && old(Ticket()) + k <= TWO_TO_64 ==>
                forall v, w :: 0 <= v < |threads| && 0 <= w < |threads| ==>
                  multiset(loops)[threads[v]] <= multiset(loops)[threads[w]] + 1
    {
      loops := [];
      ghost var first := Ticket();
      for i := 0 to k
        invariant |loops| == i && Ticket() == (first + i) % TWO_TO_64
        invariant forall j :: 0 <= j < i ==> loops[j] == threads[Choice(first + j, |threads|)]
      {
        TicketOf(first, i);
        ChoiceWraps(first + i, |threads|);
        var loop := GetNextLoop();
        assert loop == threads[Choice(first + i, |threads|)];
        loops := loops + [loop];
      }
      CountAll(threads, loops, first);
      if first + k <= TWO_TO_64 {
        FairBeforeWrap(first, k, |threads|);
      }
    }

    method GetNextLoopWithHash(hash: uint64) returns (loop: nat)
      ensures status != Running || threads == [] ==> loop == baseLoop
      ensures status == Running && threads != [] ==> loop in threads
      ensures status == Running && threads != [] ==> loop == threads[hash % |threads|]
    {
      loop := baseLoop;
      if status == Running && |threads| != 0 {
        loop := threads[hash % |threads|];
      }
    }
  }

  lemma TicketStep(x: int64)
    ensures ToUInt64(ToInt64(x + 1)) == (ToUInt64(x) + 1) % TWO_TO_64
    ensures ToUInt64(x) % TWO_TO_64 == ToUInt64(x)
  {
  }

  predicate Different(threads: seq<nat>) {
    forall i, j :: 0 <= i < j < |threads| ==> threads[i] != threads[j]
  }

  ghost predicate Counted(threads: seq<nat>, loops: seq<nat>, first: nat)
    requires threads != []
  {
    forall w :: 0 <= w < |threads| ==> multiset(loops)[threads[w]] == Chosen(first, |loops|, |threads|, w)
  }

  lemma ChoiceWraps(c: nat, n: nat)
    requires n > 0
    ensures Choice(c % TWO_TO_64, n) == Choice(c, n)
  {
    assert (c % TWO_TO_64) % TWO_TO_64 == c % TWO_TO_64;
  }

  lemma TicketOf(first: nat, i: nat)
    ensures ((first + i) % TWO_TO_64 + 1) % TWO_TO_64 == (first + i + 1) % TWO_TO_64
  {
  }

  lemma {:induction false} CountAll(threads: seq<nat>, loops: seq<nat>, first: nat)
    requires threads != []
    requires forall i :: 0 <= i < |loops| ==> loops[i] == threads[Choice(first + i, |threads|)]
    ensures Different(threads) ==> Counted(threads, loops, first)
    decreases |loops|
  {
    if loops != [] {
      var n := |loops| - 1;
      CountAll(threads, loops[..n], first);
      CountNext(threads, loops[..n], first, loops[n]);
      assert loops == loops[..n] + [loops[n]];
    }
  }

  lemma CountNext(threads: seq<nat>, loops: seq<nat>, first: nat, loop: nat)
    requires threads != [] && loop == threads[Choice(first + |loops|, |threads|)]
    requires Different(threads) ==> Counted(threads, loops, first)
    ensures Different(threads) ==> Counted(threads, loops + [loop], first)
  {
    if Different(threads) {
      forall w | 0 <= w < |threads|
        ensures multiset(loops + [loop])[threads[w]] == Chosen(first, |loops| + 1, |threads|, w)
      {
        assert multiset(loops + [loop]) == multiset(loops) + multiset{loop};
        assert threads[w] == loop <==> w == Choice(first + |loops|, |threads|);
      }
    }
  }

  /** The worker chosen by call number `c`, counted from the pool's start without wrapping. */
  function Choice(c: nat, n: nat): (w: nat)
    requires n > 0
    ensures w < n
  {
    (c % TWO_TO_64) % n
  }

  /** How often worker `w` is chosen by the `k` calls from number `a` on. */
  function Chosen(a: nat, k: nat, n: nat, w: nat): nat
    requires n > 0
  {
    if k == 0 then 0 else Chosen(a, k - 1, n, w) + if Choice(a + k - 1, n) == w then 1 else 0
  }

  /** Over the window any two workers are chosen equally often, give or take one. */
  ghost predicate FairOver(a: nat, k: nat, n: nat)
    requires n > 0
  {
    forall v, w :: 0 <= v < n && 0 <= w < n ==> Chosen(a, k, n, v) <= Chosen(a, k, n, w) + 1
  }

  // ----- Counting remainders -----

  /** How many of the first `x` numbers leave remainder `w`. */
  function Below(x: nat, n: nat, w: nat): nat
    requires n > 0
  {
    x / n + if w < x % n then 1 else 0
  }

  lemma DivStep(x: nat, n: nat)
    requires n > 0
    ensures if x % n == n - 1 then (x + 1) / n == x / n + 1 && (x + 1) % n == 0
            else (x + 1) / n == x / n && (x + 1) % n == x % n + 1
  {
    var q, r := x / n, x % n;
    assert x == n * q + r;
    if r == n - 1 {
      assert x + 1 == n * (q + 1);
      DivModUnique(x + 1, n, q + 1, 0);
    } else {
      DivModUnique(x + 1, n, q, r + 1);
    }
  }

  lemma BelowStep(x: nat, n: nat, w: nat)
    requires w < n
    ensures Below(x + 1, n, w) == Below(x, n, w) + if x % n == w then 1 else 0
  {
    DivStep(x, n);
  }

  /** As long as choices are plain remainders, counting them is a difference. */
  lemma {:induction false} ChosenIsDifference(a: nat, k: nat, n: nat, w: nat)
    requires w < n
    requires forall c: nat :: a <= c < a + k ==> Choice(c, n) == c % n
    ensures Chosen(a, k, n, w) == Below(a + k, n, w) - Below(a, n, w)
  {
    if k > 0 {
      ChosenIsDifference(a, k - 1, n, w);
      BelowStep(a + k - 1, n, w);
    }
  }

  lemma PlainIsFair(a: nat, k: nat, n: nat)
    requires n > 0 && forall c: nat :: a <= c < a + k ==> Choice(c, n) == c % n
    ensures FairOver(a, k, n)
  {
    forall v, w | 0 <= v < n && 0 <= w < n ensures Chosen(a, k, n, v) <= Chosen(a, k, n, w) + 1 {
      ChosenIsDifference(a, k, n, v);
      ChosenIsDifference(a, k, n, w);
    }
  }

  // ----- Main results -----

  /** The workers take turns, the first one first; only where the counter wraps may the turn
      jump, and then to the first. */
  lemma RoundRobin(c: nat, n: nat)
    requires n > 0
    ensures Choice(0, n) == 0
    ensures var w := Choice(c, n);
            Choice(c + 1, n) == if w == n - 1 || (c + 1) % TWO_TO_64 == 0 then 0 else w + 1
  {
    DivStep(c, TWO_TO_64);
    DivStep(c % TWO_TO_64, n);
    DivModUnique(0, n, 0, 0);
  }

  /** Fairness of every window before the counter wraps. */
  lemma FairBeforeWrap(a: nat, k: nat, n: nat)
    requires n > 0 && a + k <= TWO_TO_64
    ensures FairOver(a, k, n)
  {
    PlainIsFair(a, k, n);
  }

  lemma Regroup(n: nat, p: nat, q: nat, s: nat)
    ensures (n * p) * q + n * s == (p * q + s) * n
  {
    assert (n * p) * q == (p * q) * n;
    assert (p * q + s) * n == (p * q) * n + s * n;
  }

  lemma ModMod(c: nat, n: nat, m: nat)
    requires n > 0 && m > 0 && m % n == 0
    ensures (c % m) % n == c % n
  {
    var p, q, r := m / n, c / m, c % m;
    var s, t := r / n, r % n;
    Regroup(n, p, q, s);
    assert m == n * p && c == m * q + r && r == n * s + t;
    assert c == (p * q + s) * n + t;
    NatProduct(p, q);
    DivModUnique(c, n, p * q + s, t);
  }

  lemma NatProduct(p: nat, q: nat)
    ensures p * q >= 0
  {
  }

  /** The exact condition: every window, also one over the wrap of the counter, is fair if
      and only if the number of workers divides 2 to the 64. */
  lemma FairIff(n: nat)
    requires 0 < n < TWO_TO_64
    ensures (forall a: nat, k: nat :: FairOver(a, k, n)) <==> TWO_TO_64 % n == 0
  {
    if TWO_TO_64 % n == 0 {
      forall a: nat, k: nat ensures FairOver(a, k, n) {
        forall c: nat | a <= c < a + k ensures Choice(c, n) == c % n {
          ModMod(c, n, TWO_TO_64);
        }
        PlainIsFair(a, k, n);
      }
    } else {
      UnfairOverWrap(n);
    }
  }

  /** The calls around the wrap: the first workers get two, the others none. */
  lemma UnfairOverWrap(n: nat)
    requires 0 < n < TWO_TO_64 && TWO_TO_64 % n != 0
    ensures var r := TWO_TO_64 % n; !FairOver(TWO_TO_64 - r, 2 * r, n)
  {
    var r := TWO_TO_64 % n;
    var a := TWO_TO_64 - r;
    forall c: nat | a <= c < a + r ensures Choice(c, n) == c - a {
      LastRemainders(c, n);
    }
    forall c: nat | TWO_TO_64 <= c < TWO_TO_64 + r ensures Choice(c, n) == c - TWO_TO_64 {
      FirstRemainders(c, n);
    }
    ChosenSplit(a, r, r, n, 0);
    ChosenSplit(a, r, r, n, r);
    ChosenOnce(a, r, n, 0);
    ChosenOnce(a + r, r, n, 0);
    ChosenOnce(a, r, n, r);
    ChosenOnce(a + r, r, n, r);
    assert Chosen(a, 2 * r, n, 0) == 2 && Chosen(a, 2 * r, n, r) == 0;
  }

  lemma LastRemainders(c: nat, n: nat)
    requires 0 < n && TWO_TO_64 - TWO_TO_64 % n <= c < TWO_TO_64
    ensures Choice(c, n) == c - (TWO_TO_64 - TWO_TO_64 % n)
  {
    var q, r := TWO_TO_64 / n, TWO_TO_64 % n;
    assert TWO_TO_64 == n * q + r;
    DivModUnique(c, n, q, c - (TWO_TO_64 - r));
  }

  lemma FirstRemainders(c: nat, n: nat)
    requires 0 < n && TWO_TO_64 <= c < TWO_TO_64 + n && n < TWO_TO_64
    ensures Choice(c, n) == c - TWO_TO_64
  {
    var i := c - TWO_TO_64;
    DivModUnique(c, TWO_TO_64, 1, i);
    DivModUnique(i, n, 0, i);
  }

  lemma {:induction false} ChosenSplit(a: nat, j: nat, k: nat, n: nat, w: nat)
    requires n > 0
    ensures Chosen(a, j + k, n, w) == Chosen(a, j, n, w) + Chosen(a + j, k, n, w)
  {
    if k > 0 {
      ChosenSplit(a, j, k - 1, n, w);
    }
  }

  lemma {:induction false} ChosenOnce(a: nat, k: nat, n: nat, w: nat)
    requires n > 0 && forall c: nat :: a <= c < a + k ==> Choice(c, n) == c - a
    ensures Chosen(a, k, n, w) == if w < k then 1 else 0
  {
    if k > 0 {
      ChosenOnce(a, k - 1, n, w);
    }
  }
}
