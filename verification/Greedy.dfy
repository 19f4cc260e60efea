/** How many names can be held at once: a greedy set of names no two of which are one edit apart. */
module Greedy {
  import opened Wrappers
  import opened Edits
  import opened StringOrder

  function Neighbours(pool: set<string>, name: string): set<string> {
    set other | other in pool && OneEditApart(name, other)
  }

  function Degree(pool: set<string>, name: string): nat { |Neighbours(pool, name)| }

  /** The `(rank, name)` order. */
  predicate RankedBefore(rank: map<string, nat>, a: string, b: string)
    requires a in rank && b in rank
  {
    rank[a] < rank[b] || (rank[a] == rank[b] && Precedes(a, b))
  }

  lemma RankedTotal(rank: map<string, nat>, a: string, b: string)
    requires a in rank && b in rank
    ensures RankedBefore(rank, a, b) || RankedBefore(rank, b, a)
  {
    PrecedesTotal(a, b);
  }

  lemma RankedTransitive(rank: map<string, nat>, a: string, b: string, c: string)
    requires a in rank && b in rank && c in rank && RankedBefore(rank, a, b) && RankedBefore(rank, b, c)
    ensures RankedBefore(rank, a, c)
  {
    if rank[a] == rank[b] == rank[c] {
      PrecedesTransitive(a, b, c);
    }
  }

  /** The first of these names in the `(rank, name)` order. */
  method Least(names: set<string>, rank: map<string, nat>) returns (least: string)
    requires names != {} && names <= rank.Keys
    ensures least in names && forall other | other in names :: RankedBefore(rank, least, other)
  {
    hide Precedes, RankedBefore;
    least :| least in names;
    var todo := names;
    RankedTotal(rank, least, least);
    while todo != {}
      invariant todo <= names && least in names
      invariant forall other | other in names - todo :: RankedBefore(rank, least, other)
      invariant RankedBefore(rank, least, least)
      decreases todo
    {
      var t :| t in todo;
      todo := todo - {t};
      RankedTotal(rank, t, least);
      RankedTotal(rank, t, t);
      if !RankedBefore(rank, least, t) {
        forall other | other in names - todo ensures RankedBefore(rank, t, other) {
          if other != t {
            RankedTransitive(rank, t, least, other);
          }
        }
        least := t;
      }
    }
  }

  /** In ascending `(rank, name)` order, each name once. */
  ghost predicate Ascending(order: seq<string>, rank: map<string, nat>) {
    && Elements(order) <= rank.Keys
    && forall i, j | 0 <= i < j < |order| :: order[i] != order[j] && RankedBefore(rank, order[i], order[j])
  }

  /** `sorted` by rank, then name. */
  method Sorted(names: set<string>, rank: map<string, nat>) returns (order: seq<string>)
    requires names <= rank.Keys
    ensures Elements(order) == names && Ascending(order, rank)
    ensures forall i, j | 0 <= i < j < |order| ::
              order[i] in rank && order[j] in rank && rank[order[i]] <= rank[order[j]]
              && (rank[order[i]] == rank[order[j]] ==> Precedes(order[i], order[j]))
  {
    hide Precedes, RankedBefore;
    order := [];
    var todo := names;
    while todo != {}
      invariant todo <= names && Elements(order) == names - todo
      invariant Ascending(order, rank)
      invariant forall done, other | done in order && other in todo :: RankedBefore(rank, done, other)
      decreases todo
    {
      var least := Least(todo, rank);
      assert least !in order by { assert least !in Elements(order); }
      todo := todo - {least};
      assert Elements(order + [least]) == Elements(order) + {least};
      order := order + [least];
    }
    AscendingMeans(order, rank);
  }

  lemma AscendingMeans(order: seq<string>, rank: map<string, nat>)
    requires Ascending(order, rank)
    ensures forall i, j | 0 <= i < j < |order| ::
              order[i] in rank && order[j] in rank && rank[order[i]] <= rank[order[j]]
              && (rank[order[i]] == rank[order[j]] ==> Precedes(order[i], order[j]))
  {
    hide Precedes;
    assert forall i | 0 <= i < |order| :: order[i] in Elements(order);
  }

  /** One over a degree plus one. */
  ghost function Part(degree: nat): real { 1.0 / (degree + 1) as real }

  ghost function Parts(n: nat, degree: nat): real { n as real * Part(degree) }

  lemma OneMorePart(n: nat, degree: nat)
    ensures Parts(0, degree) == 0.0 && Parts(n + 1, degree) == Parts(n, degree) + Part(degree)
  {
    hide Part;
    var each := Part(degree);
    assert (n + 1) as real * each == n as real * each + each;
  }

  lemma PartFalls(low: nat, high: nat)
    requires low <= high
    ensures Part(high) <= Part(low)
  {
    Reciprocal((low + 1) as real, (high + 1) as real);
  }

  lemma Reciprocal(x: real, y: real)
    requires 0.0 < x <= y
    ensures 1.0 / y <= 1.0 / x
  {
    assert 1.0 / y > 0.0 && 1.0 / y * y == 1.0 && 1.0 / x * x == 1.0;
    assert 1.0 / y * x <= 1.0 / y * y;
    assert (1.0 / x - 1.0 / y) * x >= 0.0;
  }

  lemma PartsOfOne(n: nat, degree: nat)
    requires n <= degree + 1
    ensures Parts(n, degree) <= 1.0
  {
    var each := Part(degree);
    assert each > 0.0 && (degree + 1) as real * each == 1.0;
    hide Part;
    assert n as real * each <= (degree + 1) as real * each;
  }

  /** A name's share: one over its degree plus one. */
  ghost function Share(pool: set<string>, name: string): real { Part(Degree(pool, name)) }

  ghost function Shares(pool: set<string>, names: set<string>): real {
    if names == {} then 0.0
    else
      var name :| name in names;
      Share(pool, name) + Shares(pool, names - {name})
  }

  lemma {:induction false} SharesWithout(pool: set<string>, names: set<string>, name: string)
    requires name in names
    ensures Shares(pool, names) == Share(pool, name) + Shares(pool, names - {name})
    decreases names
  {
    hide Share;
    var first :| first in names
                 && Shares(pool, names) == Share(pool, first) + Shares(pool, names - {first});
    if first != name {
      SharesWithout(pool, names - {first}, name);
      SharesWithout(pool, names - {name}, first);
      assert names - {first} - {name} == names - {name} - {first};
    }
  }

  lemma {:induction false} SharesOfBoth(pool: set<string>, a: set<string>, b: set<string>)
    requires a !! b
    ensures Shares(pool, a + b) == Shares(pool, a) + Shares(pool, b)
    decreases a
  {
    hide Share;
    if a == {} {
      assert a + b == b;
    } else {
      var name :| name in a;
      SharesOfBoth(pool, a - {name}, b);
      SharesWithout(pool, a, name);
      SharesWithout(pool, a + b, name);
      assert a + b - {name} == (a - {name}) + b;
    }
  }

  /** Names of at least this degree weigh at most one over the degree plus one each. */
  lemma {:induction false} SharesBound(pool: set<string>, names: set<string>, degree: nat)
    requires forall name | name in names :: degree <= Degree(pool, name)
    ensures Shares(pool, names) <= Parts(|names|, degree)
    decreases names
  {
    hide Degree, Part, Parts;
    OneMorePart(0, degree);
    if names != {} {
      var name :| name in names;
      SharesBound(pool, names - {name}, degree);
      SharesWithout(pool, names, name);
      PartFalls(degree, Degree(pool, name));
      OneMorePart(|names - {name}|, degree);
      assert |names| == |names - {name}| + 1;
    }
  }

  /** What one choice newly excludes weighs at most one, when no name left has a lower degree. */
  lemma ChoiceWeighsAtMostOne(pool: set<string>, name: string, newly: set<string>)
    requires newly <= Neighbours(pool, name) + {name}
    requires forall other | other in newly :: Degree(pool, name) <= Degree(pool, other)
    ensures Shares(pool, newly) <= 1.0
  {
    hide Degree, Part, Parts, Shares, Neighbours;
    SharesBound(pool, newly, Degree(pool, name));
    ChoiceIsSmall(pool, name, newly);
    PartsOfOne(|newly|, Degree(pool, name));
  }

  lemma ChoiceIsSmall(pool: set<string>, name: string, newly: set<string>)
    requires newly <= Neighbours(pool, name) + {name}
    ensures |newly| <= Degree(pool, name) + 1
  {
    hide Neighbours;
    Fewer(newly, Neighbours(pool, name) + {name});
  }

  lemma {:induction false} Fewer(part: set<string>, whole: set<string>)
    requires part <= whole
    ensures |part| <= |whole|
  {
    if part != {} {
      var x :| x in part;
      Fewer(part - {x}, whole - {x});
    }
  }

  ghost predicate Independent(names: set<string>) {
    forall a, b | a in names && b in names :: !OneEditApart(a, b)
  }

  /** The names a set of choices excludes: the choices and all their neighbours. */
  ghost predicate Excludes(pool: set<string>, chosen: set<string>, excluded: set<string>) {
    forall name :: name in excluded <==>
        name in chosen || (name in pool && exists c | c in chosen :: OneEditApart(c, name))
  }

  lemma ChoiceExcludes(pool: set<string>, chosen: set<string>, excluded: set<string>, name: string)
    requires Excludes(pool, chosen, excluded) && name in pool
    ensures Excludes(pool, chosen + {name}, excluded + {name} + Neighbours(pool, name))
  {
    hide OneEditApart;
  }

  lemma ChoiceIsIndependent(pool: set<string>, chosen: set<string>, excluded: set<string>, name: string)
    requires Excludes(pool, chosen, excluded) && Independent(chosen) && name in pool && name !in excluded
    ensures Independent(chosen + {name})
  {
    hide OneEditApart;
    forall a, b | a in chosen + {name} && b in chosen + {name} ensures !OneEditApart(a, b) {
      Symmetric(a, b);
      OneEditExact(a, a);
    }
  }

  /** The greedy choice of a name not yet excluded keeps the loop's invariants. */
  lemma ChoiceStep(pool: set<string>, rank: map<string, nat>, order: seq<string>, i: nat, chosen: set<string>,
                   excluded: set<string>)
    requires rank.Keys == pool && forall name | name in pool :: rank[name] == Degree(pool, name)
    requires Elements(order) == pool && Ascending(order, rank) && i < |order|
    requires chosen <= excluded <= pool && forall k | 0 <= k < i :: order[k] in excluded
    requires Excludes(pool, chosen, excluded) && Independent(chosen) && order[i] in pool - excluded
    requires Shares(pool, excluded) <= |chosen| as real
    ensures
      var all := excluded + {order[i]} + Neighbours(pool, order[i]);
      && all <= pool
      && Excludes(pool, chosen + {order[i]}, all) && Independent(chosen + {order[i]})
      && Shares(pool, all) <= |chosen + {order[i]}| as real
  {
    hide OneEditApart, Precedes, Degree, Neighbours, Shares, Excludes, Independent, Ascending;
    var name := order[i];
    var near := Neighbours(pool, name);
    var newly := {name} + near - excluded;
    NeighboursAreInPool(pool, name);
    forall other | other in newly ensures Degree(pool, name) <= Degree(pool, other) {
      LaterIsNoLower(pool, rank, order, i, other, excluded);
    }
    ChoiceWeighsAtMostOne(pool, name, newly);
    SharesOfBoth(pool, excluded, newly);
    ChoiceIsIndependent(pool, chosen, excluded, name);
    ChoiceExcludes(pool, chosen, excluded, name);
    assert excluded + newly == excluded + {name} + near;
  }

  /** The greedy loop over the names in ascending degree. */
  method Choose(pool: set<string>, rank: map<string, nat>, order: seq<string>) returns (chosen: set<string>)
    requires rank.Keys == pool && forall name | name in pool :: rank[name] == Degree(pool, name)
    requires Elements(order) == pool && Ascending(order, rank)
    ensures chosen <= pool && Independent(chosen) && Excludes(pool, chosen, pool)
    ensures Shares(pool, pool) <= |chosen| as real
  {
    hide OneEditApart, Precedes, Degree, Neighbours, Shares, Excludes, Independent, Ascending, RankedBefore;
    chosen := {};
    var excluded: set<string> := {};
    NothingChosen(pool);
    for i := 0 to |order|
      invariant chosen <= excluded <= pool
      invariant forall k | 0 <= k < i :: order[k] in excluded
      invariant Excludes(pool, chosen, excluded) && Independent(chosen)
      invariant Shares(pool, excluded) <= |chosen| as real
    {
      var name := order[i];
      assert name in Elements(order);
      if name !in excluded {
        var near := Neighbours(pool, name);
        ChoiceStep(pool, rank, order, i, chosen, excluded);
        chosen := chosen + {name};
        excluded := excluded + {name} + near;
      }
    }
    forall name | name in pool ensures name in excluded {
      assert name in Elements(order);
    }
    assert excluded == pool;
  }

  lemma NothingChosen(pool: set<string>)
    ensures Excludes(pool, {}, {}) && Independent({}) && Shares(pool, {}) == 0.0
  {
  }

  lemma NeighboursAreInPool(pool: set<string>, name: string)
    ensures Neighbours(pool, name) <= pool
  {
  }

  lemma LaterIsNoLower(pool: set<string>, rank: map<string, nat>, order: seq<string>, i: nat, other: string,
                       excluded: set<string>)
    requires rank.Keys == pool && forall name | name in pool :: rank[name] == Degree(pool, name)
    requires Elements(order) == pool && Ascending(order, rank) && i < |order|
    requires forall k | 0 <= k < i :: order[k] in excluded
    requires other in pool && other !in excluded
    ensures Degree(pool, order[i]) <= Degree(pool, other)
  {
    hide Degree, Precedes;
    assert other in Elements(order);
    var j :| 0 <= j < |order| && order[j] == other;
    assert order[i] in Elements(order);
  }

  /** `one_edit_free_subset`. */
  method OneEditFreeSubset(names: seq<string>) returns (chosen: seq<string>)
    ensures Ascending(chosen, map name | name in Elements(chosen) :: 0)
    ensures Elements(chosen) <= Elements(names)
    ensures forall i, j | 0 <= i < |chosen| && 0 <= j < |chosen| :: !OneEditApart(chosen[i], chosen[j])
    ensures forall name | name in names && name !in chosen :: exists c | c in chosen :: OneEditApart(name, c)
    ensures Shares(Elements(names), Elements(names)) <= |chosen| as real
  {
    hide OneEditApart, Precedes, Degree, Shares;
    var pool := Elements(names);
    var rank := map name | name in pool :: Degree(pool, name);
    var order := Sorted(pool, rank);
    var picked := Choose(pool, rank, order);
    chosen := Sorted(picked, map name | name in picked :: 0);
    LengthOfDistinct(chosen, map name | name in picked :: 0);
    forall i, j | 0 <= i < |chosen| && 0 <= j < |chosen| ensures !OneEditApart(chosen[i], chosen[j]) {
      assert chosen[i] in Elements(chosen) && chosen[j] in Elements(chosen);
    }
    forall name | name in names && name !in chosen ensures exists c | c in chosen :: OneEditApart(name, c) {
      assert name in pool && name !in Elements(chosen);
      var c :| c in picked && OneEditApart(c, name);
      Symmetric(c, name);
      assert c in Elements(chosen);
    }
  }

  lemma {:induction false} LengthOfDistinct(order: seq<string>, rank: map<string, nat>)
    requires Ascending(order, rank)
    ensures |order| == |Elements(order)|
    decreases |order|
  {
    hide Precedes, RankedBefore, Ascending, Elements;
    if order == [] {
      assert Elements(order) == {} by { NoElements(); }
    } else {
      var front, last := order[..|order| - 1], order[|order| - 1];
      assert order == front + [last];
      ElementsOfBoth(front, last);
      FrontAscends(order, rank);
      LengthOfDistinct(front, rank);
    }
  }

  lemma NoElements()
    ensures Elements<string>([]) == {}
  {
  }

  lemma FrontAscends(order: seq<string>, rank: map<string, nat>)
    requires Ascending(order, rank) && order != []
    ensures Ascending(order[..|order| - 1], rank)
    ensures order[|order| - 1] !in Elements(order[..|order| - 1])
  {
    hide RankedBefore;
    var front := order[..|order| - 1];
    assert forall name | name in Elements(front) :: name in Elements(order);
  }

  lemma ElementsOfBoth(front: seq<string>, last: string)
    ensures Elements(front + [last]) == Elements(front) + {last}
  {
  }

  /** The bound is at least the whole over the largest degree plus one. */
  lemma {:induction false} SharesAtLeast(pool: set<string>, names: set<string>, highest: nat)
    requires forall name | name in names :: Degree(pool, name) <= highest
    ensures Parts(|names|, highest) <= Shares(pool, names)
    decreases names
  {
    hide Degree, Part, Parts;
    OneMorePart(0, highest);
    if names != {} {
      var name :| name in names;
      SharesAtLeast(pool, names - {name}, highest);
      SharesWithout(pool, names, name);
      PartFalls(Degree(pool, name), highest);
      OneMorePart(|names - {name}|, highest);
      assert |names| == |names - {name}| + 1;
    }
  }
}
