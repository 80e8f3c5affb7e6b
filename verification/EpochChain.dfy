// Facts about chains of next pointers and about rerouting them.
module EpochChain {
  import opened EpochMachine

  lemma {:induction false} ChainUnique(m: map<Addr, Addr>, p: Addr, xs: seq<Addr>, ys: seq<Addr>)
    requires Chain(m, p, xs) && Chain(m, p, ys)
    ensures xs == ys
    decreases |xs|
  {
    if xs == [] {
    } else {
      ChainUnique(m, m[p], xs[1..], ys[1..]);
    }
  }

  lemma {:induction false} ChainMember(m: map<Addr, Addr>, p: Addr, xs: seq<Addr>, a: Addr)
    requires Chain(m, p, xs) && a in xs
    ensures a != NULL && a in m
    decreases |xs|
  {
    if a == xs[0] {
    } else {
      ChainMember(m, m[p], xs[1..], a);
    }
  }

  /** The list after e is the chain that starts at e's successor. */
  lemma {:induction false} ChainSuffix(m: map<Addr, Addr>, p: Addr, xs: seq<Addr>, e: Addr)
    requires Chain(m, p, xs) && e in xs
    ensures e in m && Chain(m, m[e], Suffix(xs, e)) && |Suffix(xs, e)| < |xs|
    ensures forall a :: a in Suffix(xs, e) ==> a in xs
    decreases |xs|
  {
    if e == xs[0] {
    } else {
      ChainSuffix(m, m[p], xs[1..], e);
    }
  }

  /** A chain that ends never meets the same element twice. */
  lemma ChainNoRepeat(m: map<Addr, Addr>, p: Addr, xs: seq<Addr>, e: Addr)
    requires Chain(m, p, xs) && e in xs
    ensures e !in Suffix(xs, e)
  {
    ChainSuffix(m, p, xs, e);
    var ys := Suffix(xs, e);
    if e in ys {
      ChainSuffix(m, m[e], ys, e);
      ChainUnique(m, m[e], ys, Suffix(ys, e));
    }
  }

  lemma {:induction false} ChainFrame(m: map<Addr, Addr>, m': map<Addr, Addr>, p: Addr, xs: seq<Addr>)
    requires Chain(m, p, xs)
    requires forall a :: a in xs && a in m ==> a in m' && m'[a] == m[a]
    ensures Chain(m', p, xs)
    decreases |xs|
  {
    if xs == [] {
    } else {
      assert xs[0] in xs;
      ChainFrame(m, m', m[p], xs[1..]);
    }
  }

  /** One store to e's next pointer turns the chain into the rerouted one. */
  lemma {:induction false} ChainReroute(m: map<Addr, Addr>, p: Addr, xs: seq<Addr>, e: Addr, q: Addr, tail: seq<Addr>)
    requires Chain(m, p, xs) && Chain(m[e := q], q, tail) && e != NULL
    ensures Chain(m[e := q], p, Reroute(xs, e, tail))
    decreases |xs|
  {
    if xs == [] {
    } else {
      if xs[0] == e {
        assert ([e] + tail)[1..] == tail;
      } else {
        ChainReroute(m, m[p], xs[1..], e, q, tail);
        var r := Reroute(xs[1..], e, tail);
        assert ([xs[0]] + r)[1..] == r;
      }
    }
  }

  lemma {:induction false} RerouteMembers(xs: seq<Addr>, e: Addr, tail: seq<Addr>, a: Addr)
    requires a in Reroute(xs, e, tail)
    ensures a in xs || (e in xs && a in tail)
    decreases |xs|
  {
    if xs[0] == e || a == xs[0] {
    } else {
      RerouteMembers(xs[1..], e, tail, a);
    }
  }

  lemma {:induction false} RerouteIdle(xs: seq<Addr>, e: Addr, tail: seq<Addr>)
    ensures e !in xs ==> Reroute(xs, e, tail) == xs
    ensures e in xs ==> e in Reroute(xs, e, tail) && forall a :: a in tail ==> a in Reroute(xs, e, tail)
    decreases |xs|
  {
    if xs == [] || xs[0] == e {
    } else {
      RerouteIdle(xs[1..], e, tail);
      if e !in xs { assert xs == [xs[0]] + xs[1..]; }
    }
  }

  lemma {:induction false} RerouteLength(xs: seq<Addr>, e: Addr, tail: seq<Addr>)
    requires e in xs
    ensures |Reroute(xs, e, tail)| == |xs| - |Suffix(xs, e)| + |tail|
    decreases |xs|
  {
    if xs[0] == e {
    } else {
      RerouteLength(xs[1..], e, tail);
    }
  }

  // --------------------------------------------------------------------------------------------------------

  /** e is in xs and no element of level k comes before e, nor is e one. */
  predicate Clear(level: map<Addr, int>, xs: seq<Addr>, e: Addr, k: int) {
    xs != [] && LevelOf(level, xs[0]) != k && (xs[0] == e || Clear(level, xs[1..], e, k))
  }

  lemma {:induction false} FirstInList(level: map<Addr, int>, xs: seq<Addr>, k: int)
    requires NULL !in xs
    ensures var f := First(level, xs, k);
      if f in xs then LevelOf(level, f) == k else f == NULL && forall a :: a in xs ==> LevelOf(level, a) != k
    decreases |xs|
  {
    if xs == [] {
    } else {
      FirstInList(level, xs[1..], k);
      assert xs == [xs[0]] + xs[1..];
    }
  }

  lemma {:induction false} ClearSuffix(level: map<Addr, int>, xs: seq<Addr>, e: Addr, k: int)
    requires Clear(level, xs, e, k)
    ensures e in xs && First(level, xs, k) == First(level, Suffix(xs, e), k)
    decreases |xs|
  {
    if xs[0] == e {
    } else {
      ClearSuffix(level, xs[1..], e, k);
    }
  }

  lemma {:induction false} FirstFrame(level: map<Addr, int>, level': map<Addr, int>, xs: seq<Addr>, k: int)
    requires forall a :: a in xs ==> LevelOf(level', a) == LevelOf(level, a)
    ensures First(level', xs, k) == First(level, xs, k)
    ensures forall e :: Clear(level', xs, e, k) == Clear(level, xs, e, k)
    decreases |xs|
  {
    if xs == [] {
    } else {
      assert xs[0] in xs;
      FirstFrame(level, level', xs[1..], k);
    }
  }

  /** What a walker finds on a rerouted chain. */
  lemma {:induction false} FirstReroute(level: map<Addr, int>, xs: seq<Addr>, e: Addr, tail: seq<Addr>, k: int)
    ensures First(level, Reroute(xs, e, tail), k)
         == if Clear(level, xs, e, k) then First(level, tail, k) else First(level, xs, k)
    decreases |xs|
  {
    if xs == [] {
    } else {
      if xs[0] == e {
        assert ([e] + tail)[1..] == tail;
      } else {
        FirstReroute(level, xs[1..], e, tail, k);
        var r := Reroute(xs[1..], e, tail);
        assert ([xs[0]] + r)[1..] == r;
      }
    }
  }

  /** The search loop of a writer: the next element of a chain is clear too, unless it matches. */
  lemma {:induction false} ClearAdvance(m: map<Addr, Addr>, level: map<Addr, int>, p: Addr, xs: seq<Addr>, e: Addr,
      k: int)
    requires Chain(m, p, xs) && Clear(level, xs, e, k)
    ensures e in m
    ensures m[e] == NULL ==> Suffix(xs, e) == [] && First(level, xs, k) == NULL
    ensures m[e] != NULL ==> Suffix(xs, e) != [] && Suffix(xs, e)[0] == m[e]
    ensures m[e] != NULL && LevelOf(level, m[e]) != k ==> Clear(level, xs, m[e], k)
    decreases |xs|
  {
    if xs[0] != e {
      ClearAdvance(m, level, m[p], xs[1..], e, k);
    } else if m[e] != NULL {
      assert xs[1] == m[e];
    }
  }

  /** Two chains through e agree from e on. */
  lemma SameSuffix(m: map<Addr, Addr>, p: Addr, xs: seq<Addr>, q: Addr, ys: seq<Addr>, e: Addr)
    requires Chain(m, p, xs) && Chain(m, q, ys) && e in xs && e in ys
    ensures Suffix(xs, e) == Suffix(ys, e)
  {
    ChainSuffix(m, p, xs, e);
    ChainSuffix(m, q, ys, e);
    ChainUnique(m, m[e], Suffix(xs, e), Suffix(ys, e));
  }
}
