/** match_order, level by level, is one greedy pass over the flattened opposite side. */
module BookGreedy {
  import opened Sums
  import opened Orders
  import opened BookSpec

  // ----- price order -----

  lemma {:induction false} BestFirstOrdered(side: OrderSide, s: set<real>)
    ensures forall p :: p in s <==> p in BestFirst(side, s)
    ensures Ordered(side, BestFirst(side, s))
    decreases |s|
  {
    if s != {} {
      var p, rest := Best(side, s), BestFirst(side, s - {Best(side, s)});
      BestFirstOrdered(side, s - {p});
      assert BestFirst(side, s) == [p] + rest;
      assert forall i :: 0 <= i < |rest| ==> rest[i] in s - {p};
    }
  }

  lemma {:induction false} BestFirstInside(side: OrderSide, s: set<real>)
    ensures forall i :: 0 <= i < |BestFirst(side, s)| ==> BestFirst(side, s)[i] in s
    decreases |s|
  {
    if s != {} {
      BestFirstInside(side, s - {Best(side, s)});
    }
  }

  lemma {:induction false} QueueAgrees(m: Ladder, n: Ladder, keys: seq<real>)
    requires forall p :: p in keys ==> LevelAt(m, p).orders == LevelAt(n, p).orders
    ensures Queue(m, keys) == Queue(n, keys)
  {
    if keys != [] {
      QueueAgrees(m, n, keys[1..]);
    }
  }

  /** Prices that no longer have a level contribute nothing: the queue of a ladder can be read off any
      ordered list of prices that covers it. */
  lemma {:induction false} QueueCovers(side: OrderSide, m: Ladder, keys: seq<real>)
    requires Ordered(side, keys)
    requires forall p :: p in m ==> p in keys
    ensures Queue(m, keys) == QueueFor(side, m)
    decreases |keys|
  {
    if keys == [] {
      if m.Keys != {} {
        var p := Pick(m.Keys);
        assert false;
      }
    } else {
      var p, rest := keys[0], keys[1..];
      assert p !in rest;
      if p in m {
        assert IsBest(side, m.Keys, p);
        assert Best(side, m.Keys) == p;
        assert (m - {p}).Keys == m.Keys - {p};
        QueueCovers(side, m - {p}, rest);
        QueueAgrees(m, m - {p}, rest);
        BestFirstOrdered(side, m.Keys - {p});
        QueueAgrees(m, m - {p}, BestFirst(side, m.Keys - {p}));
      } else {
        assert MakersAt(m, p) == [];
        QueueCovers(side, m, rest);
      }
    }
  }

  lemma {:induction false} QueueMembers(m: Ladder, keys: seq<real>, x: Maker)
    ensures x in Queue(m, keys) <==> x.price in keys && x.price in m && x.entry in m[x.price].orders
  {
    if keys != [] {
      QueueMembers(m, keys[1..], x);
      var es := LevelAt(m, keys[0]).orders;
      var here := Makers(keys[0], es);
      if x in here {
        var i :| 0 <= i < |here| && here[i] == x;
        assert es[i] == x.entry;
      }
      if x.price == keys[0] && x.entry in es {
        var i :| 0 <= i < |es| && es[i] == x.entry;
        assert here[i] == x;
      }
    }
  }

  lemma QueueForMembers(side: OrderSide, m: Ladder, x: Maker)
    ensures x in QueueFor(side, m) <==> x.price in m && x.entry in m[x.price].orders
  {
    QueueMembers(m, BestFirst(side, m.Keys), x);
    BestFirstOrdered(side, m.Keys);
  }

  /** The queue is sorted by price, best first. */
  lemma {:induction false} QueueSorted(side: OrderSide, m: Ladder, keys: seq<real>)
    requires Ordered(side, keys)
    ensures forall i, j :: 0 <= i < j < |Queue(m, keys)| ==>
              AtLeastAsGood(side, Queue(m, keys)[i].price, Queue(m, keys)[j].price)
  {
    if keys != [] {
      var here, rest := MakersAt(m, keys[0]), Queue(m, keys[1..]);
      QueueSorted(side, m, keys[1..]);
      forall x | x in rest
        ensures AtLeastAsGood(side, keys[0], x.price)
      {
        QueueMembers(m, keys[1..], x);
      }
      assert Queue(m, keys) == here + rest;
    }
  }

  // ----- the greedy allocation -----

  lemma {:induction false} FillsBounds(t: OrderData, q: seq<Maker>, wanted: real)
    ensures forall i :: 0 <= i < |q| ==> 0.0 <= Fills(t, q, wanted)[i] <= Available(t, q[i])
    ensures 0.0 <= Sum(Fills(t, q, wanted)) <= Max(0.0, wanted)
    ensures Sum(Fills(t, q, wanted)) < wanted ==>
              forall i :: 0 <= i < |q| ==> Fills(t, q, wanted)[i] == Available(t, q[i])
  {
    if q != [] {
      FillsBounds(t, q[1..], wanted - Fills(t, q, wanted)[0]);
    }
  }

  lemma {:induction false} FillsConcat(t: OrderData, a: seq<Maker>, b: seq<Maker>, wanted: real, behind: real)
    requires behind == wanted - Sum(Fills(t, a, wanted))
    ensures Fills(t, a + b, wanted) == Fills(t, a, wanted) + Fills(t, b, behind)
  {
    if a == [] {
      assert a + b == b;
    } else {
      var x := Fills(t, a, wanted)[0];
      assert (a + b)[0] == a[0] && (a + b)[1..] == a[1..] + b;
      assert Fills(t, a, wanted)[1..] == Fills(t, a[1..], wanted - x);
      FillsConcat(t, a[1..], b, wanted - x, behind);
    }
  }

  /** Price-time priority: what a maker gives is what is still wanted after everything ahead of it, no more
      than it has. */
  lemma {:induction false} FillsByPriority(t: OrderData, q: seq<Maker>, wanted: real, k: nat)
    requires k < |q| && wanted >= 0.0
    ensures Fills(t, q, wanted)[k] == Min(Available(t, q[k]), Max(0.0, wanted - SumAvailable(t, q[..k])))
    decreases k
  {
    var x := Fills(t, q, wanted)[0];
    if k > 0 {
      FillsByPriority(t, q[1..], wanted - x, k - 1);
      assert q[..k][1..] == q[1..][..k - 1];
      SumAvailableNonNegative(t, q[1..][..k - 1]);
    }
  }

  function SumAvailable(t: OrderData, q: seq<Maker>): real {
    if q == [] then 0.0 else Available(t, q[0]) + SumAvailable(t, q[1..])
  }

  lemma {:induction false} SumAvailableNonNegative(t: OrderData, q: seq<Maker>)
    ensures SumAvailable(t, q) >= 0.0
  {
    if q != [] {
      SumAvailableNonNegative(t, q[1..]);
    }
  }

  /** A maker gets nothing unless everything ahead of it is exhausted. */
  lemma FillsInTurn(t: OrderData, q: seq<Maker>, wanted: real, i: nat, k: nat)
    requires i < k < |q|
    requires Fills(t, q, wanted)[k] > 0.0
    ensures Fills(t, q, wanted)[i] == Available(t, q[i])
  {
    assert q == q[..k] + q[k..];
    FillsConcat(t, q[..k], q[k..], wanted, wanted - Sum(Fills(t, q[..k], wanted)));
    FillsBounds(t, q[..k], wanted);
    FillsBounds(t, q[k..], wanted - Sum(Fills(t, q[..k], wanted)));
    assert Fills(t, q[..k], wanted)[i] == Fills(t, q, wanted)[i];
    assert q[..k][i] == q[i];
  }

  lemma {:induction false} NothingWanted(t: OrderData, q: seq<Maker>, f: seq<real>)
    requires |f| == |q| && forall i :: 0 <= i < |f| ==> f[i] == 0.0
    ensures Sum(f) == 0.0 && Apply(q, f) == q && Reports(t, q, f) == []
  {
    if q != [] {
      NothingWanted(t, q[1..], f[1..]);
    }
  }

  lemma {:induction false} LiveConcat(a: seq<Maker>, b: seq<Maker>)
    ensures LiveOnly(a + b) == LiveOnly(a) + LiveOnly(b)
  {
    if a == [] {
      assert a + b == b;
    } else {
      assert (a + b)[1..] == a[1..] + b;
      LiveConcat(a[1..], b);
    }
  }

  lemma {:induction false} LiveMembers(q: seq<Maker>, x: Maker)
    ensures x in LiveOnly(q) <==> x in q && x.entry.Live()
  {
    if q != [] {
      LiveMembers(q[1..], x);
      assert q == [q[0]] + q[1..];
    }
  }

  lemma {:induction false} LiveIdentity(q: seq<Maker>)
    requires forall x :: x in q ==> x.entry.Live()
    ensures LiveOnly(q) == q
  {
    if q != [] {
      assert q[0] in q;
      assert forall x :: x in q[1..] ==> x in q;
      LiveIdentity(q[1..]);
    }
  }

  lemma {:induction false} ReportsConcat(t: OrderData, a: seq<Maker>, f: seq<real>, b: seq<Maker>, g: seq<real>)
    requires |a| == |f| && |b| == |g|
    ensures Reports(t, a + b, f + g) == Reports(t, a, f) + Reports(t, b, g)
  {
    if a == [] {
      assert a + b == b && f + g == g;
    } else {
      assert (a + b)[1..] == a[1..] + b && (f + g)[1..] == f[1..] + g;
      ReportsConcat(t, a[1..], f[1..], b, g);
    }
  }

  lemma ApplyConcat(a: seq<Maker>, f: seq<real>, b: seq<Maker>, g: seq<real>)
    requires |a| == |f| && |b| == |g|
    ensures Apply(a + b, f + g) == Apply(a, f) + Apply(b, g)
  {
  }

  /** Everything about a split allocation at once. */
  lemma AllocationConcat(t: OrderData, a: seq<Maker>, b: seq<Maker>, wanted: real, behind: real)
    requires behind == wanted - Sum(Fills(t, a, wanted))
    ensures var f := Fills(t, a, wanted); var g := Fills(t, b, behind); var h := Fills(t, a + b, wanted);
            && h == f + g
            && Sum(h) == Sum(f) + Sum(g)
            && Apply(a + b, h) == Apply(a, f) + Apply(b, g)
            && LiveOnly(Apply(a + b, h)) == LiveOnly(Apply(a, f)) + LiveOnly(Apply(b, g))
            && Reports(t, a + b, h) == Reports(t, a, f) + Reports(t, b, g)
  {
    var f := Fills(t, a, wanted);
    var g := Fills(t, b, behind);
    FillsConcat(t, a, b, wanted, behind);
    SumConcat(f, g);
    ApplyConcat(a, f, b, g);
    LiveConcat(Apply(a, f), Apply(b, g));
    ReportsConcat(t, a, f, b, g);
  }

  // ----- the walk over the levels -----

  lemma StoredLevel(m: Ladder, p: real, q: seq<Maker>)
    requires forall i :: 0 <= i < |q| ==> q[i].price == p
    ensures Makers(p, LevelAt(Store(m, p, Entries(q)), p).orders) == q
  {
  }

  lemma {:induction false} LiveOnlyPrice(q: seq<Maker>, p: real)
    requires forall i :: 0 <= i < |q| ==> q[i].price == p
    ensures forall i :: 0 <= i < |LiveOnly(q)| ==> LiveOnly(q)[i].price == p
  {
    if q != [] {
      LiveOnlyPrice(q[1..], p);
    }
  }

  lemma {:induction false} LiveOnlyIdempotent(q: seq<Maker>)
    ensures LiveOnly(LiveOnly(q)) == LiveOnly(q)
  {
    if q != [] {
      LiveOnlyIdempotent(q[1..]);
    }
  }

  /** What one greedy pass over a queue reports and leaves. */
  ghost predicate Greedy(t: OrderData, q: seq<Maker>, wanted: real, left: seq<Maker>, remaining: real,
                         reports: seq<MatchReport>) {
    var f := Fills(t, q, wanted);
    && reports == Reports(t, q, f)
    && remaining == wanted - Sum(f)
    && LiveOnly(left) == LiveOnly(Apply(q, f))
  }

  lemma GreedyConcat(t: OrderData, a: seq<Maker>, b: seq<Maker>, wanted: real, behind: real, leftA: seq<Maker>,
                     leftB: seq<Maker>, remaining: real, reports: seq<MatchReport>)
    requires behind == wanted - Sum(Fills(t, a, wanted))
    requires LiveOnly(leftA) == LiveOnly(Apply(a, Fills(t, a, wanted)))
    requires Greedy(t, b, behind, leftB, remaining, reports)
    ensures Greedy(t, a + b, wanted, leftA + leftB, remaining, Reports(t, a, Fills(t, a, wanted)) + reports)
  {
    AllocationConcat(t, a, b, wanted, behind);
    LiveConcat(leftA, leftB);
  }

  /** The result `r` of walking the levels `keys` is what one greedy pass over their queue gives. */
  ghost predicate Refined(m: Ladder, keys: seq<real>, t: OrderData, wanted: real, r: LadderMatch) {
    Greedy(t, Queue(m, keys), wanted, Queue(r.ladder, keys), r.remaining, r.reports)
  }

  /** The walk creates no level and touches none but those it is given. */
  lemma {:induction false} MatchLadderFrame(m: Ladder, keys: seq<real>, t: OrderData, wanted: real)
    ensures var left := MatchLadder(m, keys, t, wanted).ladder;
            && (forall p :: p in left ==> p in m)
            && (forall p :: p !in keys ==> LevelAt(left, p) == LevelAt(m, p))
    decreases |keys|
  {
    if keys == [] || wanted == 0.0 {
    } else if keys[0] !in m || !WithinLimit(t, keys[0]) {
      MatchLadderFrame(m, keys[1..], t, wanted);
    } else {
      var q := Makers(keys[0], m[keys[0]].orders);
      var f := Fills(t, q, wanted);
      MatchLadderFrame(Store(m, keys[0], Entries(LiveOnly(Apply(q, f)))), keys[1..], t, wanted - Sum(f));
    }
  }

  /** The level walk of match_order against the specification: one greedy pass over the queue. */
  lemma {:induction false} MatchLadderRefines(m: Ladder, keys: seq<real>, t: OrderData, wanted: real)
    requires Ordered(t.side, keys) && wanted >= 0.0
    ensures Refined(m, keys, t, wanted, MatchLadder(m, keys, t, wanted))
    decreases |keys|
  {
    var q := Queue(m, keys);
    if keys == [] {
    } else if wanted == 0.0 {
      var f := Fills(t, q, wanted);
      FillsBounds(t, q, wanted);
      NonNegativeTermsOfZero(f);
      NothingWanted(t, q, f);
    } else {
      var behind := wanted - Sum(Fills(t, MakersAt(m, keys[0]), wanted));
      FillsBounds(t, MakersAt(m, keys[0]), wanted);
      MatchLadderRefines(NextLadder(m, keys[0], t, wanted), keys[1..], t, behind);
      RefinedStep(m, keys, t, wanted, behind);
    }
  }

  lemma {:induction false} NonNegativeTermsOfZero(f: seq<real>)
    requires forall i :: 0 <= i < |f| ==> f[i] >= 0.0
    requires Sum(f) == 0.0
    ensures forall i :: 0 <= i < |f| ==> f[i] == 0.0
  {
    if f != [] {
      SumNonNegative(f[1..]);
      NonNegativeTermsOfZero(f[1..]);
    }
  }

  /** The ladder once the level at `p` is done. */
  function NextLadder(m: Ladder, p: real, t: OrderData, wanted: real): Ladder {
    if p !in m || !WithinLimit(t, p) then m
    else Store(m, p, Entries(LiveOnly(Apply(Makers(p, m[p].orders), Fills(t, Makers(p, m[p].orders), wanted)))))
  }

  lemma NextLadderLevels(m: Ladder, p: real, t: OrderData, wanted: real)
    ensures var next := NextLadder(m, p, t, wanted);
            && LiveOnly(MakersAt(next, p)) == LiveOnly(Apply(MakersAt(m, p), Fills(t, MakersAt(m, p), wanted)))
            && (forall r :: r != p ==> LevelAt(next, r) == LevelAt(m, r))
  {
    var here := MakersAt(m, p);
    var g := Fills(t, here, wanted);
    if p !in m || !WithinLimit(t, p) {
      NothingTaken(t, p, here, wanted);
    } else {
      var kept := LiveOnly(Apply(here, g));
      LiveOnlyPrice(Apply(here, g), p);
      StoredLevel(m, p, kept);
      LiveOnlyIdempotent(Apply(here, g));
    }
  }

  lemma NothingTaken(t: OrderData, p: real, here: seq<Maker>, wanted: real)
    requires here == [] || !WithinLimit(t, p)
    requires forall i :: 0 <= i < |here| ==> here[i].price == p
    ensures var g := Fills(t, here, wanted); Sum(g) == 0.0 && Apply(here, g) == here && Reports(t, here, g) == []
  {
    var g := Fills(t, here, wanted);
    FillsBounds(t, here, wanted);
    assert forall i :: 0 <= i < |g| ==> g[i] == 0.0;
    NothingWanted(t, here, g);
  }

  /** A level that is skipped is one from which nothing is taken. */
  lemma WalkUnfolds(m: Ladder, keys: seq<real>, t: OrderData, wanted: real, behind: real)
    requires keys != [] && wanted > 0.0
    requires behind == wanted - Sum(Fills(t, MakersAt(m, keys[0]), wanted))
    ensures var here := MakersAt(m, keys[0]);
            var r := MatchLadder(NextLadder(m, keys[0], t, wanted), keys[1..], t, behind);
            MatchLadder(m, keys, t, wanted) == r.(reports := Reports(t, here, Fills(t, here, wanted)) + r.reports)
  {
    var here := MakersAt(m, keys[0]);
    if keys[0] !in m || !WithinLimit(t, keys[0]) {
      NothingTaken(t, keys[0], here, wanted);
    } else {
      assert here == Makers(keys[0], m[keys[0]].orders);
    }
  }

  lemma RefinedStep(m: Ladder, keys: seq<real>, t: OrderData, wanted: real, behind: real)
    requires keys != [] && keys[0] !in keys[1..] && wanted > 0.0
    requires behind == wanted - Sum(Fills(t, MakersAt(m, keys[0]), wanted))
    requires var next := NextLadder(m, keys[0], t, wanted);
             Refined(next, keys[1..], t, behind, MatchLadder(next, keys[1..], t, behind))
    ensures Refined(m, keys, t, wanted, MatchLadder(m, keys, t, wanted))
  {
    var p, rest := keys[0], keys[1..];
    var next := NextLadder(m, p, t, wanted);
    var r := MatchLadder(next, rest, t, behind);
    NextLadderLevels(m, p, t, wanted);
    QueueAgrees(m, next, rest);
    MatchLadderFrame(next, rest, t, behind);
    GreedyConcat(t, MakersAt(m, p), Queue(m, rest), wanted, behind, MakersAt(r.ladder, p), Queue(r.ladder, rest),
                 r.remaining, r.reports);
    WalkUnfolds(m, keys, t, wanted, behind);
  }

  lemma WholeLadderRefines(m: Ladder, o: OrderData)
    requires o.quantity >= o.filled
    ensures Greedy(o, QueueFor(o.side, m), o.quantity - o.filled,
                   QueueFor(o.side, WholeWalk(m, o).ladder), WholeWalk(m, o).remaining, WholeWalk(m, o).reports)
  {
    var keys, wanted := BestFirst(o.side, m.Keys), o.quantity - o.filled;
    var r := MatchLadder(m, keys, o, wanted);
    assert Queue(r.ladder, keys) == QueueFor(o.side, r.ladder) by {
      BestFirstOrdered(o.side, m.Keys);
      MatchLadderFrame(m, keys, o, wanted);
      QueueCovers(o.side, r.ladder, keys);
    }
    assert Refined(m, keys, o, wanted, r) by {
      BestFirstOrdered(o.side, m.Keys);
      MatchLadderRefines(m, keys, o, wanted);
    }
  }

  // ----- every level, orders without a remainder included -----

  /** What the walk leaves at one price, `wanted` being what is still wanted when the level comes up: a level that
      is reached is swept of all orders with nothing left, any other keeps every order it had. */
  function LeftAt(t: OrderData, price: real, es: seq<Entry>, wanted: real): seq<Entry> {
    if wanted <= 0.0 || !WithinLimit(t, price) then es
    else Entries(LiveOnly(Apply(Makers(price, es), Fills(t, Makers(price, es), wanted))))
  }

  lemma {:induction false} FillsSum(t: OrderData, q: seq<Maker>, wanted: real)
    requires wanted >= 0.0
    ensures Sum(Fills(t, q, wanted)) == Min(wanted, SumAvailable(t, q))
  {
    SumAvailableNonNegative(t, q);
    if q != [] {
      SumAvailableNonNegative(t, q[1..]);
      FillsSum(t, q[1..], wanted - Fills(t, q, wanted)[0]);
    }
  }

  /** What the first `k` levels have for the taker. */
  function Ahead(m: Ladder, keys: seq<real>, t: OrderData, k: nat): (a: real)
    requires k <= |keys|
    decreases k
  {
    if k == 0 then 0.0
    else SumAvailable(t, MakersAt(m, keys[0])) + Ahead(m, keys[1..], t, k - 1)
  }

  lemma {:induction false} AheadAgrees(m: Ladder, n: Ladder, keys: seq<real>, t: OrderData, k: nat)
    requires k <= |keys|
    requires forall i :: 0 <= i < |keys| ==> LevelAt(m, keys[i]).orders == LevelAt(n, keys[i]).orders
    ensures Ahead(m, keys, t, k) == Ahead(n, keys, t, k) >= 0.0
    decreases k
  {
    if k > 0 {
      SumAvailableNonNegative(t, MakersAt(m, keys[0]));
      AheadAgrees(m, n, keys[1..], t, k - 1);
    }
  }

  lemma {:induction false} NothingAvailable(t: OrderData, price: real, es: seq<Entry>)
    requires !WithinLimit(t, price)
    ensures SumAvailable(t, Makers(price, es)) == 0.0
  {
    if es != [] {
      assert Makers(price, es)[1..] == Makers(price, es[1..]);
      NothingAvailable(t, price, es[1..]);
    }
  }

  /** What is still wanted behind the level at `p`. */
  function WantedBehind(m: Ladder, p: real, t: OrderData, wanted: real): real {
    Max(0.0, wanted - SumAvailable(t, MakersAt(m, p)))
  }

  /** One level of the walk: what it leaves at its price, and what is still wanted behind it. */
  lemma FirstLevel(m: Ladder, keys: seq<real>, t: OrderData, wanted: real)
    requires keys != [] && wanted > 0.0
    ensures var p := keys[0]; var es := LevelAt(m, p).orders; var next := NextLadder(m, p, t, wanted);
            && MatchLadder(m, keys, t, wanted).ladder ==
                 MatchLadder(next, keys[1..], t, WantedBehind(m, p, t, wanted)).ladder
            && LevelAt(next, p).orders == LeftAt(t, p, es, wanted)
            && (forall r :: r != p ==> LevelAt(next, r) == LevelAt(m, r))
  {
    var p, es := keys[0], LevelAt(m, keys[0]).orders;
    var here := Makers(p, es);
    if !WithinLimit(t, p) {
      NothingAvailable(t, p, es);
    } else {
      FillsSum(t, here, wanted);
    }
  }

  /** Level `k` of `left` holds what the walk leaves there, the levels ahead of it having been served first. */
  ghost predicate LevelLeft(m: Ladder, keys: seq<real>, t: OrderData, wanted: real, left: Ladder, k: nat)
    requires k < |keys|
  {
    LevelAt(left, keys[k]).orders == LeftAt(t, keys[k], LevelAt(m, keys[k]).orders, wanted - Ahead(m, keys, t, k))
  }

  /** So it is for every level, whatever quantities the orders have. */
  lemma {:induction false} MatchLeavesEveryLevel(m: Ladder, keys: seq<real>, t: OrderData, wanted: real, k: nat)
    requires Ordered(t.side, keys) && k < |keys| && wanted >= 0.0
    ensures LevelLeft(m, keys, t, wanted, MatchLadder(m, keys, t, wanted).ladder, k)
    decreases |keys|
  {
    if wanted == 0.0 {
      AheadAgrees(m, m, keys, t, k);
    } else {
      FirstLevel(m, keys, t, wanted);
      if k == 0 {
        FirstLevelLeft(m, keys, t, wanted);
      } else {
        var next := NextLadder(m, keys[0], t, wanted);
        var left := WantedBehind(m, keys[0], t, wanted);
        MatchLeavesEveryLevel(next, keys[1..], t, left, k - 1);
        LaterLevel(m, next, keys, t, wanted, MatchLadder(next, keys[1..], t, left).ladder, k);
      }
    }
  }

  lemma FirstLevelLeft(m: Ladder, keys: seq<real>, t: OrderData, wanted: real)
    requires Ordered(t.side, keys) && keys != [] && wanted > 0.0
    ensures LevelLeft(m, keys, t, wanted, MatchLadder(m, keys, t, wanted).ladder, 0)
  {
    var next := NextLadder(m, keys[0], t, wanted);
    var left := WantedBehind(m, keys[0], t, wanted);
    assert keys[0] !in keys[1..];
    FirstLevel(m, keys, t, wanted);
    MatchLadderFrame(next, keys[1..], t, left);
    assert LevelAt(MatchLadder(next, keys[1..], t, left).ladder, keys[0]) == LevelAt(next, keys[0]);
  }

  lemma LaterLevel(m: Ladder, next: Ladder, keys: seq<real>, t: OrderData, wanted: real, out: Ladder, k: nat)
    requires 0 < k < |keys|
    requires forall i :: 1 <= i < |keys| ==> LevelAt(next, keys[i]) == LevelAt(m, keys[i])
    requires LevelLeft(next, keys[1..], t, WantedBehind(m, keys[0], t, wanted), out, k - 1)
    ensures LevelLeft(m, keys, t, wanted, out, k)
  {
    var rest := keys[1..];
    var here := SumAvailable(t, MakersAt(m, keys[0]));
    assert rest[k - 1] == keys[k];
    assert forall i :: 0 <= i < |rest| ==> rest[i] == keys[i + 1];
    AheadAgrees(m, next, rest, t, k - 1);
    assert Ahead(m, keys, t, k) == here + Ahead(next, rest, t, k - 1);
    SameLeft(t, keys[k], LevelAt(m, keys[k]).orders, Max(0.0, wanted - here) - Ahead(next, rest, t, k - 1),
             wanted - Ahead(m, keys, t, k));
  }

  lemma SameLeft(t: OrderData, price: real, es: seq<Entry>, v: real, w: real)
    requires v == w || (v <= 0.0 && w <= 0.0)
    ensures LeftAt(t, price, es, v) == LeftAt(t, price, es, w)
  {
  }

  /** No level is new, and every level holds what the pass leaves there. */
  ghost predicate LevelsLeft(m: Ladder, keys: seq<real>, t: OrderData, wanted: real, left: Ladder) {
    && (forall p :: p in left ==> p in m)
    && (forall k :: 0 <= k < |keys| ==> LevelLeft(m, keys, t, wanted, left, k))
  }

  lemma LevelsLeftByWalk(m: Ladder, keys: seq<real>, t: OrderData, wanted: real)
    requires Ordered(t.side, keys) && wanted >= 0.0
    ensures LevelsLeft(m, keys, t, wanted, MatchLadder(m, keys, t, wanted).ladder)
  {
    MatchLadderFrame(m, keys, t, wanted);
    forall k | 0 <= k < |keys|
      ensures LevelLeft(m, keys, t, wanted, MatchLadder(m, keys, t, wanted).ladder, k)
    {
      MatchLeavesEveryLevel(m, keys, t, wanted, k);
    }
  }

  /** Of the orders without a remainder, exactly those at the levels the pass reaches are swept. */
  ghost predicate Swept(book: Book, o: OrderData, after: Book) {
    LevelsLeft(book.Against(o.side), BestFirst(o.side, book.Against(o.side).Keys), o, o.quantity - o.filled,
               after.Against(o.side))
  }

  lemma MatchSweeps(book: Book, o: OrderData)
    requires Walks(o)
    ensures Swept(book, o, MatchSpec(book, o).book)
  {
    WalkSweeps(book.Against(o.side), o);
    FinishLeaves(book, o, WholeWalk(book.Against(o.side), o));
  }

  lemma WalkSweeps(m: Ladder, o: OrderData)
    requires o.filled <= o.quantity
    ensures LevelsLeft(m, BestFirst(o.side, m.Keys), o, o.quantity - o.filled, WholeWalk(m, o).ladder)
  {
    var keys, wanted := BestFirst(o.side, m.Keys), o.quantity - o.filled;
    assert Ordered(o.side, keys) by {
      BestFirstOrdered(o.side, m.Keys);
    }
    LevelsLeftByWalk(m, keys, o, wanted);
    assert WholeWalk(m, o) == MatchLadder(m, keys, o, wanted);
  }

  lemma FinishLeaves(book: Book, o: OrderData, walk: LadderMatch)
    ensures Finish(book, o, walk).book.Against(o.side) == walk.ladder
  {
  }

  /** match_order as one greedy pass: the reports, the fill of the taker and what is left of the opposite side are
      those of the pass; the taker's own side is untouched. Of the orders without a remainder, exactly those at the
      levels the pass reaches are swept. */
  lemma MatchRefinesGreedy(book: Book, o: OrderData)
    requires Walks(o)
    ensures var q := QueueFor(o.side, book.Against(o.side)); var f := Fills(o, q, o.quantity - o.filled);
            var r := MatchSpec(book, o);
            && r.reports == Reports(o, q, f)
            && r.order == o.(filled := o.filled + Sum(f),
                             status := if o.filled + Sum(f) == o.quantity then Filled else Open)
            && r.book.On(o.side) == book.On(o.side)
            && LiveOnly(QueueFor(o.side, r.book.Against(o.side))) == LiveOnly(Apply(q, f))
            && Swept(book, o, r.book)
  {
    var m := book.Against(o.side);
    WholeLadderRefines(m, o);
    assert MatchSpec(book, o) == Finish(book, o, WholeWalk(m, o));
    MatchSweeps(book, o);
  }

  // ----- what is left determines the book -----

  /** Holds whatever quantities the orders have. */
  ghost predicate Sound(m: Ladder) {
    forall p :: p in m ==> m[p].orders != [] && m[p].total == SumRemaining(m[p].orders) && p <= 1.0
  }

  ghost predicate AllLive(m: Ladder) {
    forall p :: p in m ==> forall e :: e in m[p].orders ==> e.Live()
  }

  function AtPrice(q: seq<Maker>, p: real): seq<Maker> {
    if q == [] then []
    else if q[0].price == p then [q[0]] + AtPrice(q[1..], p)
    else AtPrice(q[1..], p)
  }

  lemma {:induction false} AtPriceConcat(a: seq<Maker>, b: seq<Maker>, p: real)
    ensures AtPrice(a + b, p) == AtPrice(a, p) + AtPrice(b, p)
  {
    if a == [] {
      assert a + b == b;
    } else {
      assert (a + b)[1..] == a[1..] + b;
      AtPriceConcat(a[1..], b, p);
    }
  }

  lemma {:induction false} AtPriceMakers(p: real, es: seq<Entry>, r: real)
    ensures AtPrice(Makers(p, es), r) == if p == r then Makers(p, es) else []
  {
    if es != [] {
      assert Makers(p, es)[1..] == Makers(p, es[1..]);
      AtPriceMakers(p, es[1..], r);
    }
  }

  lemma {:induction false} LevelFromQueue(side: OrderSide, m: Ladder, keys: seq<real>, p: real)
    requires Ordered(side, keys)
    ensures AtPrice(Queue(m, keys), p) == if p in keys then MakersAt(m, p) else []
  {
    if keys != [] {
      AtPriceConcat(MakersAt(m, keys[0]), Queue(m, keys[1..]), p);
      AtPriceMakers(keys[0], LevelAt(m, keys[0]).orders, p);
      LevelFromQueue(side, m, keys[1..], p);
    }
  }

  lemma LevelOfQueue(side: OrderSide, m: Ladder, p: real)
    ensures AtPrice(QueueFor(side, m), p) == MakersAt(m, p)
  {
    BestFirstOrdered(side, m.Keys);
    LevelFromQueue(side, m, BestFirst(side, m.Keys), p);
  }

  lemma SameQueueSameLevel(side: OrderSide, m: Ladder, n: Ladder, p: real)
    requires QueueFor(side, m) == QueueFor(side, n)
    ensures LevelAt(m, p).orders == LevelAt(n, p).orders
  {
    LevelOfQueue(side, m, p);
    LevelOfQueue(side, n, p);
    MakersInjective(p, LevelAt(m, p).orders, LevelAt(n, p).orders);
  }

  /** A sound ladder can be rebuilt from its queue. */
  lemma LadderFromQueue(side: OrderSide, m: Ladder, n: Ladder)
    requires Sound(m) && Sound(n)
    requires QueueFor(side, m) == QueueFor(side, n)
    ensures m == n
  {
    forall p | p in m
      ensures p in n && m[p] == n[p]
    {
      SameQueueSameLevel(side, m, n, p);
    }
    forall p | p in n
      ensures p in m
    {
      SameQueueSameLevel(side, m, n, p);
    }
  }

  lemma MakersInjective(p: real, a: seq<Entry>, b: seq<Entry>)
    requires Makers(p, a) == Makers(p, b)
    ensures a == b
  {
    assert |a| == |Makers(p, a)| == |b|;
    forall i | 0 <= i < |a|
      ensures a[i] == b[i]
    {
      assert Makers(p, a)[i] == Makers(p, b)[i];
    }
  }

  lemma {:induction false} MatchLadderSound(m: Ladder, keys: seq<real>, t: OrderData, wanted: real)
    requires Sound(m)
    ensures Sound(MatchLadder(m, keys, t, wanted).ladder)
    ensures AllLive(m) ==> AllLive(MatchLadder(m, keys, t, wanted).ladder)
    decreases |keys|
  {
    if keys == [] || wanted == 0.0 {
    } else if keys[0] !in m || !WithinLimit(t, keys[0]) {
      MatchLadderSound(m, keys[1..], t, wanted);
    } else {
      var q := Makers(keys[0], m[keys[0]].orders);
      var f := Fills(t, q, wanted);
      var kept := LiveOnly(Apply(q, f));
      forall e | e in Entries(kept)
        ensures e.Live()
      {
        var i :| 0 <= i < |kept| && Entries(kept)[i] == e;
        LiveMembers(Apply(q, f), kept[i]);
      }
      MatchLadderSound(Store(m, keys[0], Entries(kept)), keys[1..], t, wanted - Sum(f));
    }
  }

  lemma AllLiveQueue(side: OrderSide, m: Ladder)
    requires AllLive(m)
    ensures LiveOnly(QueueFor(side, m)) == QueueFor(side, m)
  {
    forall x | x in QueueFor(side, m)
      ensures x.entry.Live()
    {
      QueueForMembers(side, m, x);
    }
    LiveIdentity(QueueFor(side, m));
  }

  /** In a sound book of live orders the remaining opposite side is the one and only sound ladder whose queue
      is the filled queue without the makers that were filled up. */
  lemma MatchLeavesExactly(book: Book, o: OrderData, n: Ladder)
    requires Walks(o) && Sound(book.Against(o.side)) && AllLive(book.Against(o.side))
    ensures var q := QueueFor(o.side, book.Against(o.side)); var f := Fills(o, q, o.quantity - o.filled);
            var left := MatchSpec(book, o).book.Against(o.side);
            && QueueFor(o.side, left) == LiveOnly(Apply(q, f))
            && (Sound(n) && QueueFor(o.side, n) == LiveOnly(Apply(q, f)) ==> n == left)
  {
    var m := book.Against(o.side);
    var left := MatchSpec(book, o).book.Against(o.side);
    MatchRefinesGreedy(book, o);
    MatchLadderSound(m, BestFirst(o.side, m.Keys), o, o.quantity - o.filled);
    AllLiveQueue(o.side, left);
    if Sound(n) && QueueFor(o.side, n) == QueueFor(o.side, left) {
      LadderFromQueue(o.side, n, left);
    }
  }

  // ----- conservation -----

  function ReportedQuantity(reports: seq<MatchReport>): real {
    if reports == [] then 0.0 else reports[0].quantity + ReportedQuantity(reports[1..])
  }

  function ReportedMoney(reports: seq<MatchReport>): real {
    if reports == [] then 0.0 else Money(reports[0].price, reports[0].quantity) + ReportedMoney(reports[1..])
  }

  lemma {:induction false} ReportsAddUp(t: OrderData, q: seq<Maker>, f: seq<real>)
    requires |q| == |f|
    requires forall i :: 0 <= i < |f| ==> f[i] >= 0.0
    ensures ReportedQuantity(Reports(t, q, f)) == Sum(f)
    ensures ReportedMoney(Reports(t, q, f)) == Cost(q, f)
    ensures forall r :: r in Reports(t, q, f) ==> r.quantity > 0.0 && r.orderId == t.id
  {
    if q != [] {
      var rest := Reports(t, q[1..], f[1..]);
      ReportsAddUp(t, q[1..], f[1..]);
      if f[0] > 0.0 {
        assert Reports(t, q, f) == [ReportOf(t, q[0], f[0])] + rest;
        assert ([ReportOf(t, q[0], f[0])] + rest)[1..] == rest;
      } else {
        assert Reports(t, q, f) == [] + rest == rest;
      }
    }
  }

  /** What the live orders of a queue still have to trade. */
  function Depth(q: seq<Maker>): real {
    if q == [] then 0.0 else Max(0.0, q[0].entry.Remaining()) + Depth(q[1..])
  }

  lemma {:induction false} DepthOfLive(q: seq<Maker>)
    ensures Depth(LiveOnly(q)) == Depth(q)
  {
    if q != [] {
      DepthOfLive(q[1..]);
    }
  }

  lemma {:induction false} DepthAfter(t: OrderData, q: seq<Maker>, f: seq<real>)
    requires |q| == |f|
    requires forall i :: 0 <= i < |f| ==> 0.0 <= f[i] <= Available(t, q[i])
    ensures Depth(Apply(q, f)) == Depth(q) - Sum(f)
    ensures forall i :: 0 <= i < |f| && q[i].entry.filled <= q[i].entry.total ==>
              q[i].entry.filled <= Apply(q, f)[i].entry.filled <= q[i].entry.total
  {
    if q != [] {
      assert Apply(q, f)[1..] == Apply(q[1..], f[1..]);
      DepthAfter(t, q[1..], f[1..]);
      forall i | 0 <= i < |f|
        ensures q[i].entry.filled <= q[i].entry.total ==>
                  q[i].entry.filled <= Apply(q, f)[i].entry.filled <= q[i].entry.total
      {
        assert 0.0 <= f[i] <= Available(t, q[i]);
      }
    }
  }

  /** No maker is overfilled: each report leaves its maker between empty-handed and full. */
  lemma {:induction false} ReportsWithinMakers(t: OrderData, q: seq<Maker>, f: seq<real>, x: MatchReport)
    requires |q| == |f|
    requires forall i :: 0 <= i < |f| ==> 0.0 <= f[i] <= Available(t, q[i])
    requires x in Reports(t, q, f)
    ensures x.oppositeFilled <= x.oppositeTotal
    ensures exists i :: 0 <= i < |q| && f[i] > 0.0 && x == ReportOf(t, q[i], f[i])
    ensures WithinLimit(t, x.price)
  {
    if x in Reports(t, q[1..], f[1..]) {
      assert forall i :: 0 <= i < |f[1..]| ==> f[1..][i] == f[i + 1] && q[1..][i] == q[i + 1];
      ReportsWithinMakers(t, q[1..], f[1..], x);
      var i :| 0 <= i < |q[1..]| && f[1..][i] > 0.0 && x == ReportOf(t, q[1..][i], f[1..][i]);
      assert x == ReportOf(t, q[i + 1], f[i + 1]);
    } else {
      assert f[0] > 0.0 && x == ReportOf(t, q[0], f[0]);
      assert f[0] <= Available(t, q[0]);
    }
  }

  /** Shares are conserved: reported, gained by the taker and lost by the opposite side are one quantity; no maker
      and no taker is overfilled, and the taker is FILLED exactly when it has everything. */
  lemma MatchConserves(book: Book, o: OrderData)
    requires Walks(o)
    ensures var r := MatchSpec(book, o);
            && ReportedQuantity(r.reports) == r.order.filled - o.filled
            && Depth(QueueFor(o.side, book.Against(o.side))) - Depth(QueueFor(o.side, r.book.Against(o.side)))
                 == r.order.filled - o.filled
            && (forall x :: x in r.reports ==>
                  && x.quantity > 0.0 && x.orderId == o.id
                  && x.oppositeFilled <= x.oppositeTotal && WithinLimit(o, x.price))
            && o.filled <= r.order.filled <= o.quantity
            && (r.order.status == Filled <==> r.order.filled == o.quantity)
            && r.order == o.(filled := r.order.filled, status := r.order.status)
  {
    var q := QueueFor(o.side, book.Against(o.side));
    var f := Fills(o, q, o.quantity - o.filled);
    MatchRefinesGreedy(book, o);
    FillsBounds(o, q, o.quantity - o.filled);
    ReportsAddUp(o, q, f);
    forall x | x in Reports(o, q, f)
      ensures x.oppositeFilled <= x.oppositeTotal && WithinLimit(o, x.price)
    {
      ReportsWithinMakers(o, q, f, x);
    }
    DepthAfter(o, q, f);
    DepthOfLive(Apply(q, f));
    DepthOfLive(QueueFor(o.side, MatchSpec(book, o).book.Against(o.side)));
  }
}
