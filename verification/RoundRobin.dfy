/** The round-robin picker of util/client_conn/balancer.go. */
module RoundRobin {
  import opened Prelude

  /** Which connection pick number i takes, of n, when the first is start. */
  function PickAt(n: nat, start: nat, i: nat): (c: nat)
    requires n > 0
    ensures c < n
  {
    (start + i) % n
  }

  /** The picks among the first k that take connection c. */
  ghost function PicksOf(n: nat, start: nat, k: nat, c: nat): set<nat>
    requires n > 0
  {
    set i | i in Below(k) && PickAt(n, start, i) == c
  }

  lemma MultipleAtLeast(d: int, n: nat)
    requires d > 0
    ensures d * n >= n
  {
    assert d * n == n + (d - 1) * n;
  }

  /** Quotient and remainder are unique. */
  lemma DivModUnique(x: nat, n: nat, q: nat, r: nat)
    requires r < n && x == q * n + r
    ensures x / n == q && x % n == r
  {
    var p := x / n;
    assert x == p * n + x % n;
    assert (q - p) * n == q * n - p * n && (p - q) * n == p * n - q * n;
    if p < q { MultipleAtLeast(q - p, n); }
    if q < p { MultipleAtLeast(p - q, n); }
  }

  lemma DivOneMore(x: nat, n: nat)
    requires n > 0
    ensures (x + n) / n == x / n + 1
  {
    assert (x / n + 1) * n == x / n * n + n;
    DivModUnique(x + n, n, x / n + 1, x % n);
  }

  lemma ModInWindow(n: nat, start: nat, i: nat, j: nat)
    requires n > 0 && i < j < i + n
    ensures PickAt(n, start, i) != PickAt(n, start, j)
  {
    var d := (start + j) / n - (start + i) / n;
    assert d * n == (start + j) / n * n - (start + i) / n * n;
    if d > 0 {
      MultipleAtLeast(d, n);
    } else {
      MultipleAtLeast(1 - d, n);
      assert (1 - d) * n == n - d * n;
    }
  }

  /** n consecutive picks. */
  ghost function Picks(n: nat, start: nat, first: nat): (picks: seq<nat>)
    requires n > 0
    ensures |picks| == n
  {
    seq<nat>(n, (i: nat) => PickAt(n, start, first + i))
  }

  /** Any n consecutive picks take every connection exactly once. */
  lemma ConsecutivePicksAreAPermutation(n: nat, start: nat, first: nat)
    requires n > 0
    ensures var picks := Picks(n, start, first);
            Distinct(picks) && forall c: nat :: c in picks <==> c < n
  {
    var picks := Picks(n, start, first);
    forall i, j | 0 <= i < j < |picks| ensures picks[i] != picks[j] {
      ModInWindow(n, start, first + i, first + j);
    }
    assert forall i :: 0 <= i < n ==> picks[i] == PickAt(n, start, first + i);
    Pigeonhole(picks, n);
  }

  /** Fairness: after any number of picks from any start, every connection was picked
      k/n times, rounded down or up. */
  lemma {:induction false} Fairness(n: nat, start: nat, k: nat, c: nat)
    requires n > 0 && c < n
    ensures k / n <= |PicksOf(n, start, k, c)| <= (k + n - 1) / n
    decreases k
  {
    if k < n {
      FewAreFair(n, start, k, c);
    } else {
      Fairness(n, start, k - n, c);
      OneMoreRound(n, start, k, c);
      BoundsMove(k, n);
    }
  }

  lemma FewAreFair(n: nat, start: nat, k: nat, c: nat)
    requires k < n
    ensures k / n <= |PicksOf(n, start, k, c)| <= (k + n - 1) / n
  {
    AtMostOne(n, start, k, c);
    DivBounds(k, n);
  }

  lemma BoundsMove(k: nat, n: nat)
    requires 0 < n <= k
    ensures k / n == (k - n) / n + 1 && (k + n - 1) / n == (k - n + n - 1) / n + 1
  {
    DivOneMore(k - n, n);
    DivOneMore(k - 1, n);
  }

  lemma DivBounds(k: nat, n: nat)
    requires k < n
    ensures k / n == 0 && (k + n - 1) / n == if k == 0 then 0 else 1
  {
    if k == 0 { DivModUnique(n - 1, n, 0, n - 1); } else { DivModUnique(k + n - 1, n, 1, k - 1); }
  }

  lemma AtMostOne(n: nat, start: nat, k: nat, c: nat)
    requires 0 < n && k < n
    ensures |PicksOf(n, start, k, c)| <= if k == 0 then 0 else 1
  {
    var picks := PicksOf(n, start, k, c);
    if i :| i in picks {
      forall j | j in picks ensures j == i {
        SamePick(n, start, i, j);
      }
      assert picks == {i};
    }
  }

  lemma SamePick(n: nat, start: nat, i: nat, j: nat)
    requires n > 0 && i < j + n && j < i + n && PickAt(n, start, i) == PickAt(n, start, j)
    ensures i == j
  {
    if j < i { ModInWindow(n, start, j, i); }
    if i < j { ModInWindow(n, start, i, j); }
  }

  lemma PickInRound(n: nat, start: nat, first: nat, c: nat) returns (i: nat)
    requires 0 < n && c < n
    ensures first <= i < first + n && PickAt(n, start, i) == c
  {
    ConsecutivePicksAreAPermutation(n, start, first);
    var round := Picks(n, start, first);
    assert c in round;
    var j: nat :| j < n && round[j] == c;
    i := first + j;
  }

  lemma OneMoreRound(n: nat, start: nat, k: nat, c: nat)
    requires 0 < n <= k && c < n
    ensures |PicksOf(n, start, k, c)| == |PicksOf(n, start, k - n, c)| + 1
  {
    var last := PickInRound(n, start, k - n, c);
    var before, after := PicksOf(n, start, k - n, c), PicksOf(n, start, k, c);
    forall i | i in after ensures i in before || i == last {
      if i >= k - n { SamePick(n, start, i, last); }
    }
    assert after == before + {last};
  }

  class Picker<SubConn> {
    const subConnes: seq<SubConn>
    var next: nat
    ghost const start: nat
    ghost var picks: nat   // how many picks there have been

    ghost predicate Valid()
      reads this
    {
      |subConnes| > 0 && start < |subConnes| && next == PickAt(|subConnes|, start, picks)
    }

    constructor (subConnes: seq<SubConn>, start: nat)
      requires start < |subConnes|
      ensures Valid() && this.subConnes == subConnes && this.start == start && picks == 0
    {
      this.subConnes, next, this.start, picks := subConnes, start, start, 0;
    }

    /** Pick, under the picker's mutex: the connection whose turn it is. */
    method Pick() returns (sc: SubConn)
      requires Valid()
      modifies this
      ensures Valid() && picks == old(picks) + 1
      ensures sc == subConnes[PickAt(|subConnes|, start, old(picks))] == subConnes[old(next)]
      ensures next == if old(next) + 1 < |subConnes| then old(next) + 1 else 0
    {
      AfterTurn(|subConnes|, next);
      sc := subConnes[next];
      NextTurn(|subConnes|, start, picks);
      next := (next + 1) % |subConnes|;
      picks := picks + 1;
    }

    /** k calls of Pick: every connection is taken k/n times, rounded down or up. */
    method PickMany(k: nat) returns (taken: seq<SubConn>)
      requires Valid() && Distinct(subConnes)
      modifies this
      ensures Valid() && picks == old(picks) + k && |taken| == k
      ensures forall sc :: sc in subConnes ==>
                k / |subConnes| <= |PositionsOf(taken, sc)| <= (k + |subConnes| - 1) / |subConnes|
      ensures forall sc :: sc in taken ==> sc in subConnes
    {
      taken := [];
      ghost var first := start + picks;
      for i := 0 to k
        invariant Valid() && picks == old(picks) + i && |taken| == i
        invariant forall j :: 0 <= j < i ==> taken[j] == subConnes[PickAt(|subConnes|, first, j)]
      {
        var sc := Pick();
        taken := taken + [sc];
      }
      forall sc | sc in subConnes
        ensures k / |subConnes| <= |PositionsOf(taken, sc)| <= (k + |subConnes| - 1) / |subConnes|
      {
        var c: nat :| c < |subConnes| && subConnes[c] == sc;
        TakenFairly(subConnes, first, taken, c);
      }
    }
  }

  ghost function PositionsOf<T>(s: seq<T>, x: T): set<nat> {
    set i: nat | i < |s| && s[i] == x
  }

  lemma TakenFairly<T>(conns: seq<T>, first: nat, taken: seq<T>, c: nat)
    requires Distinct(conns) && c < |conns|
    requires forall i :: 0 <= i < |taken| ==> taken[i] == conns[PickAt(|conns|, first, i)]
    ensures |taken| / |conns| <= |PositionsOf(taken, conns[c])| <= (|taken| + |conns| - 1) / |conns|
  {
    forall i: nat | i < |taken| ensures taken[i] == conns[c] <==> PickAt(|conns|, first, i) == c {
    }
    assert PositionsOf(taken, conns[c]) == PicksOf(|conns|, first, |taken|, c);
    Fairness(|conns|, first, |taken|, c);
  }

  lemma AfterTurn(n: nat, c: nat)
    requires c < n
    ensures (c + 1) % n == if c + 1 < n then c + 1 else 0
  {
    if c + 1 < n { DivModUnique(c + 1, n, 0, c + 1); } else { DivModUnique(c + 1, n, 1, 0); }
  }

  lemma NextTurn(n: nat, start: nat, i: nat)
    requires n > 0
    ensures (PickAt(n, start, i) + 1) % n == PickAt(n, start, i + 1)
  {
    var q, r := (start + i) / n, (start + i) % n;
    if r + 1 < n {
      DivModUnique(start + i + 1, n, q, r + 1);
      DivModUnique(r + 1, n, 0, r + 1);
    } else {
      assert (q + 1) * n == q * n + n;
      DivModUnique(start + i + 1, n, q + 1, 0);
      DivModUnique(r + 1, n, 1, 0);
    }
  }

  /** rrPickerBuilder.Build: each ready connection once, and a random first turn; None
      stands for the picker that only returns ErrNoSubConnAvailable. */
  method Build<SubConn>(ready: set<SubConn>, random: nat) returns (picker: Option<Picker<SubConn>>)
    ensures picker.None? <==> ready == {}
    ensures picker.Some? ==> fresh(picker.value) && picker.value.Valid() && picker.value.picks == 0
    ensures picker.Some? ==> picker.value.start == random % |ready|
    ensures picker.Some? ==> Distinct(picker.value.subConnes) && forall sc :: sc in picker.value.subConnes <==> sc in ready
  {
    if ready == {} {
      return None;
    }
    var scs: seq<SubConn> := [];
    var left := ready;
    while left != {}
      invariant left <= ready && Distinct(scs) && |scs| + |left| == |ready|
      invariant forall sc :: sc in scs <==> sc in ready && sc !in left
      decreases left
    {
      var sc :| sc in left;
      left := left - {sc};
      DistinctPush(scs, sc);
      scs := scs + [sc];
    }
    var any :| any in ready;
    assert any in scs;
    var p := new Picker(scs, random % |scs|);
    picker := Some(p);
  }
}
