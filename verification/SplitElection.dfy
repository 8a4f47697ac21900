/**
 * Resolution of network splits (lib/cluster/node.js:375-485): each node reads the ID cards and
 * works out alone which nodes have to shut down.
 */
module SplitElection {
  import opened Wrappers

  /** `topology` lists the ids of the other nodes the owner of the card knows. */
  datatype Card = Card(id: string, birthdate: int, topology: seq<string>)

  /* ---------- sorting of ids: two lists of ids sort alike exactly when they have the same members ---------- */

  /** The order of JavaScript's `sort()` on strings. */
  predicate AtMost(a: string, b: string)
  {
    if a == "" then true
    else if b == "" then false
    else if a[0] != b[0] then a[0] < b[0]
    else AtMost(a[1..], b[1..])
  }

  lemma {:induction false} AtMostIsTotal(a: string, b: string)
    ensures AtMost(a, b) || AtMost(b, a)
    ensures AtMost(a, b) && AtMost(b, a) ==> a == b
  {
    if a != "" && b != "" && a[0] == b[0] {
      AtMostIsTotal(a[1..], b[1..]);
      assert a == [a[0]] + a[1..] && b == [b[0]] + b[1..];
    }
  }

  lemma {:induction false} AtMostIsTransitive(a: string, b: string, c: string)
    requires AtMost(a, b) && AtMost(b, c)
    ensures AtMost(a, c)
  {
    if a != "" && b != "" && c != "" && a[0] == b[0] == c[0] {
      AtMostIsTransitive(a[1..], b[1..], c[1..]);
    }
  }

  function Insert(x: string, s: seq<string>): (r: seq<string>)
    ensures multiset(r) == multiset(s) + multiset{x}
  {
    if s == [] then [x]
    else if AtMost(x, s[0]) then [x] + s
    else
      assert s == [s[0]] + s[1..];
      [s[0]] + Insert(x, s[1..])
  }

  function Sort(s: seq<string>): (r: seq<string>)
    ensures multiset(r) == multiset(s) && |r| == |s|
  {
    if s == [] then []
    else
      assert s == [s[0]] + s[1..];
      var r := Insert(s[0], Sort(s[1..]));
      assert |multiset(r)| == |multiset(s)|;
      r
  }

  /** The smallest id comes first, and the rest is sorted too. */
  predicate Sorted(s: seq<string>)
  {
    s == [] || ((forall x <- s :: AtMost(s[0], x)) && Sorted(s[1..]))
  }

  lemma {:induction false} InsertKeepsSorted(x: string, s: seq<string>)
    requires Sorted(s)
    ensures Sorted(Insert(x, s))
  {
    var r := Insert(x, s);
    AtMostIsTotal(x, x);
    if s != [] {
      AtMostIsTotal(x, s[0]);
      if AtMost(x, s[0]) {
        forall y | y in r ensures AtMost(x, y) {
          if y != x {
            assert y in s;
            AtMostIsTransitive(x, s[0], y);
          }
        }
        assert r[1..] == s;
      } else {
        InsertKeepsSorted(x, s[1..]);
        assert r[1..] == Insert(x, s[1..]);
        forall y | y in r ensures AtMost(s[0], y) {
          AtMostIsTotal(s[0], s[0]);
          assert y in multiset(r);
          assert r == [s[0]] + r[1..] && s == [s[0]] + s[1..];
          assert multiset(r[1..]) == multiset(s[1..]) + multiset{x};
          assert y == s[0] || y == x || y in multiset(s[1..]);
        }
      }
    }
  }

  lemma {:induction false} SortSorts(s: seq<string>)
    ensures Sorted(Sort(s))
  {
    if s != [] {
      SortSorts(s[1..]);
      InsertKeepsSorted(s[0], Sort(s[1..]));
    }
  }

  lemma TailOfMembers(s: seq<string>)
    requires s != []
    ensures multiset(s[1..]) == multiset(s) - multiset{s[0]}
  {
    assert s == [s[0]] + s[1..];
  }

  lemma {:induction false} SortedIsUnique(s: seq<string>, t: seq<string>)
    requires Sorted(s) && Sorted(t) && multiset(s) == multiset(t)
    ensures s == t
  {
    assert |multiset(s)| == |multiset(t)|;
    if s != [] {
      assert s[0] in multiset(t) && t[0] in multiset(s);
      AtMostIsTotal(s[0], t[0]);
      assert s[0] in t && t[0] in s;
      TailOfMembers(s);
      TailOfMembers(t);
      SortedIsUnique(s[1..], t[1..]);
    }
  }

  /* ---------- what is meant, on sets of cards ---------- */

  function Ids(cards: set<Card>): set<string>
  {
    set c | c in cards :: c.id
  }

  ghost predicate DistinctIds(cards: set<Card>)
  {
    forall c, d :: c in cards && d in cards && c.id == d.id ==> c == d
  }

  ghost predicate DistinctBirthdates(cards: set<Card>)
  {
    forall c, d :: c in cards && d in cards && c.birthdate == d.birthdate ==> c == d
  }

  /** The nodes seen by the owner of a card, itself included, in the order of their ids. */
  function Seen(c: Card): seq<string>
  {
    Sort(c.topology + [c.id])
  }

  /** Two cards stand for the same split exactly when their owners see the same nodes. */
  lemma SameSplit(c: Card, d: Card)
    ensures Seen(c) == Seen(d) <==> multiset(c.topology + [c.id]) == multiset(d.topology + [d.id])
  {
    SortSorts(c.topology + [c.id]);
    SortSorts(d.topology + [d.id]);
    if multiset(c.topology + [c.id]) == multiset(d.topology + [d.id]) {
      SortedIsUnique(Seen(c), Seen(d));
    }
  }

  /** A split is what some node sees when it does not see as many nodes as there are cards. */
  function Splits(cards: set<Card>): set<seq<string>>
  {
    set c | c in cards && |Seen(c)| != |cards| :: Seen(c)
  }

  /** A split without the nodes that do not exist. */
  function Alive(split: seq<string>, ids: set<string>): (r: seq<string>)
    ensures |r| <= |split|
    ensures forall x :: x in r <==> x in split && x in ids
  {
    if split == [] then []
    else if split[0] in ids then [split[0]] + Alive(split[1..], ids)
    else Alive(split[1..], ids)
  }

  /** The splits of minimal size among existing nodes. */
  function Eligible(splits: set<seq<string>>, ids: set<string>): set<seq<string>>
  {
    set s | s in splits && (forall t <- splits :: |Alive(s, ids)| <= |Alive(t, ids)|)
  }

  function SplitsWith(splits: set<seq<string>>, x: string): set<seq<string>>
  {
    set s | s in splits && x in s
  }

  /** The existing nodes of the eligible splits that belong to no other split. */
  ghost function IsolatedNodes(splits: set<seq<string>>, ids: set<string>): set<string>
  {
    set x | x in ids && |SplitsWith(splits, x)| == 1 && (exists s <- Eligible(splits, ids) :: x in s)
  }

  ghost function EligibleNodes(splits: set<seq<string>>, ids: set<string>): set<string>
  {
    set x | x in ids && (exists s <- Eligible(splits, ids) :: x in s)
  }

  ghost predicate Youngest(c: Card, among: set<string>, cards: set<Card>)
  {
    c in cards && c.id in among && (forall d <- cards :: d.id in among ==> d.birthdate <= c.birthdate)
  }

  function Members(s: seq<string>): set<string>
  {
    set x | x in s
  }

  ghost predicate IsPartOf(cards: set<Card>, eligible: set<seq<string>>, candidates: set<string>)
  {
    exists s :: s in eligible && candidates == Members(s) * Ids(cards)
  }

  ghost predicate IsIsolatedPart(cards: set<Card>, eligible: set<seq<string>>, isolated: set<string>,
                                 candidates: set<string>)
  {
    exists s, c: Card :: s in eligible && c.id in s && Youngest(c, isolated, cards)
      && candidates == Members(s) * isolated
  }

  ghost predicate IsYoungest(cards: set<Card>, nodes: set<string>, candidates: set<string>)
  {
    exists c: Card :: Youngest(c, nodes, cards) && candidates == {c.id}
  }

  /**
   * The sole eligible split, or the isolated part of the one that holds the youngest isolated node, or the youngest
   * node.
   */
  ghost predicate Chosen(cards: set<Card>, eligible: set<seq<string>>, isolated: set<string>, nodes: set<string>,
                         candidates: set<string>)
  {
    if |eligible| == 1 then IsPartOf(cards, eligible, candidates)
    else if isolated != {} then IsIsolatedPart(cards, eligible, isolated, candidates)
    else IsYoungest(cards, nodes, candidates)
  }

  /** What the comment in the source asks for; `candidates` are the nodes that shut down. */
  ghost predicate Elected(cards: set<Card>, candidates: set<string>)
  {
    var ids := Ids(cards);
    var splits := Splits(cards);
    Chosen(cards, Eligible(splits, ids), IsolatedNodes(splits, ids), EligibleNodes(splits, ids), candidates)
  }

  /* ---------- the lists the source works on ---------- */

  /** The distinct splits, in order of discovery among the first cards. */
  function Record(cards: seq<Card>, count: nat): (r: seq<seq<string>>)
    ensures forall i, j :: 0 <= i < j < |r| ==> r[i] != r[j]
    ensures forall s :: s in r <==> exists c :: c in cards && |Seen(c)| != count && s == Seen(c)
  {
    if cards == [] then []
    else
      var rest := Record(cards[..|cards| - 1], count);
      var last := cards[|cards| - 1];
      assert cards == cards[..|cards| - 1] + [last];
      if |Seen(last)| != count && Seen(last) !in rest then rest + [Seen(last)] else rest
  }

  function CardIds(cards: seq<Card>): (r: set<string>)
    ensures r == set c | c in cards :: c.id
  {
    set c | c in cards :: c.id
  }

  function AliveAll(splits: seq<seq<string>>, ids: set<string>): (r: seq<seq<string>>)
    ensures |r| == |splits|
    ensures forall s :: s in splits ==> Alive(s, ids) in r
    ensures forall t :: t in r ==> exists s :: s in splits && t == Alive(s, ids)
  {
    if splits == [] then []
    else
      var rest := AliveAll(splits[1..], ids);
      assert splits[0] in splits;
      assert forall s :: s in splits[1..] ==> s in splits;
      assert forall t :: t in rest ==> exists s :: s in splits && t == Alive(s, ids);
      [Alive(splits[0], ids)] + rest
  }

  function InsertBySize(x: seq<string>, s: seq<seq<string>>): (r: seq<seq<string>>)
    ensures r != [] && forall y :: y in r <==> y == x || y in s
    ensures r[0] == x || (s != [] && r[0] == s[0] && |r[0]| <= |x|)
    ensures s != [] ==> |r[0]| <= |s[0]|
  {
    if s == [] then [x]
    else if |x| <= |s[0]| then [x] + s
    else [s[0]] + InsertBySize(x, s[1..])
  }

  /** The stable sort by size: a smallest list comes first. */
  function SortBySize(s: seq<seq<string>>): (r: seq<seq<string>>)
    ensures |r| > 0 <==> |s| > 0
    ensures forall x :: x in r <==> x in s
    ensures forall x :: x in s ==> |r[0]| <= |x|
  {
    if s == [] then [] else InsertBySize(s[0], SortBySize(s[1..]))
  }

  function OfSize(s: seq<seq<string>>, size: nat): (r: seq<seq<string>>)
    ensures forall x :: x in r <==> x in s && |x| == size
  {
    if s == [] then []
    else if |s[0]| == size then [s[0]] + OfSize(s[1..], size)
    else OfSize(s[1..], size)
  }

  function Flatten(s: seq<seq<string>>): (r: seq<string>)
    ensures forall x :: x in r <==> exists t :: t in s && x in t
  {
    if s == [] then [] else s[0] + Flatten(s[1..])
  }

  /** lodash's `uniq`: the first occurrence of each value. */
  function Uniq(s: seq<string>): (r: seq<string>)
    ensures forall x :: x in r <==> x in s
    ensures forall i, j :: 0 <= i < j < |r| ==> r[i] != r[j]
  {
    if s == [] then []
    else
      var rest := Uniq(s[..|s| - 1]);
      var last := s[|s| - 1];
      assert s == s[..|s| - 1] + [last];
      if last in rest then rest else rest + [last]
  }

  /** The number of lists that hold `x`. */
  function Holders(s: seq<seq<string>>, x: string): nat
  {
    if s == [] then 0 else (if x in s[0] then 1 else 0) + Holders(s[1..], x)
  }

  function HeldOnce(s: seq<string>, lists: seq<seq<string>>): (r: seq<string>)
    ensures forall x :: x in r <==> x in s && Holders(lists, x) == 1
  {
    if s == [] then []
    else if Holders(lists, s[0]) == 1 then [s[0]] + HeldOnce(s[1..], lists)
    else HeldOnce(s[1..], lists)
  }

  /** lodash's `xor`: the values that are in exactly one of the lists. */
  function Xor(lists: seq<seq<string>>): (r: seq<string>)
  {
    Uniq(HeldOnce(Flatten(lists), lists))
  }

  function InBoth(s: seq<string>, t: seq<string>): (r: seq<string>)
    ensures forall x :: x in r <==> x in s && x in t
  {
    if s == [] then []
    else if s[0] in t then [s[0]] + InBoth(s[1..], t)
    else InBoth(s[1..], t)
  }

  /** lodash's `intersection`. */
  function Intersection(s: seq<string>, t: seq<string>): (r: seq<string>)
    ensures forall x :: x in r <==> x in s && x in t
  {
    Uniq(InBoth(s, t))
  }

  /** The first card with the given id. */
  function Find(cards: seq<Card>, id: string): (c: Card)
    requires id in CardIds(cards)
    ensures c in cards && c.id == id
  {
    if cards[0].id == id then cards[0] else Find(cards[1..], id)
  }

  /** The youngest of the cards with the given ids, the first of them when several are as young. */
  function YoungestOf(ids: seq<string>, cards: seq<Card>): (c: Card)
    requires ids != [] && forall x :: x in ids ==> x in CardIds(cards)
    ensures c in cards && c.id in ids
  {
    var last := Find(cards, ids[|ids| - 1]);
    if |ids| == 1 then last
    else
      var best := YoungestOf(ids[..|ids| - 1], cards);
      if last.birthdate > best.birthdate then last else best
  }

  /** The first list that holds `id`. */
  function FirstWith(splits: seq<seq<string>>, id: string): (s: seq<string>)
    requires id in Flatten(splits)
    ensures s in splits && id in s
  {
    if id in splits[0] then splits[0] else FirstWith(splits[1..], id)
  }

  /* ---------- facts on these lists ---------- */

  lemma {:induction false} InsertBySizeFacts(x: seq<string>, s: seq<seq<string>>, k: nat, y: string)
    ensures OfSize(InsertBySize(x, s), k) == (if |x| == k then [x] else []) + OfSize(s, k)
    ensures Holders(InsertBySize(x, s), y) == (if y in x then 1 else 0) + Holders(s, y)
  {
    if s == [] || |x| <= |s[0]| {
      assert ([x] + s)[1..] == s;
    } else {
      InsertBySizeFacts(x, s[1..], k, y);
      assert s == [s[0]] + s[1..];
      var r := InsertBySize(x, s);
      assert r[0] == s[0] && r[1..] == InsertBySize(x, s[1..]);
      if |s[0]| == k {
        assert |x| != k;
      }
    }
  }

  /** Sorting by size is stable, and keeps the number of lists that hold a node. */
  lemma {:induction false} SortBySizeFacts(s: seq<seq<string>>, k: nat, y: string)
    ensures OfSize(SortBySize(s), k) == OfSize(s, k)
    ensures Holders(SortBySize(s), y) == Holders(s, y)
  {
    if s != [] {
      SortBySizeFacts(s[1..], k, y);
      InsertBySizeFacts(s[0], SortBySize(s[1..]), k, y);
      assert s == [s[0]] + s[1..];
    }
  }

  /* ---------- the election on lists ---------- */

  ghost predicate Candidacy(alive: seq<seq<string>>, cards: seq<Card>)
  {
    alive != [] && (forall s <- alive :: s != [] && (forall x <- s :: x in CardIds(cards)))
  }

  function Candidates(alive: seq<seq<string>>, cards: seq<Card>): (r: seq<string>)
    requires Candidacy(alive, cards)
  {
    var eligible := OfSize(alive, |alive[0]|);
    assert alive[0] in eligible;
    if |eligible| == 1 then eligible[0]
    else
      var nodes := Uniq(Flatten(eligible));
      assert alive[0][0] in nodes;
      var isolated := Intersection(Xor(alive), nodes);
      if isolated != [] then
        Intersection(FirstWith(eligible, YoungestOf(isolated, cards).id), isolated)
      else
        [YoungestOf(nodes, cards).id]
  }

  lemma SeesItself(c: Card)
    ensures c.id in Seen(c)
  {
    assert c.id in multiset(Seen(c));
  }

  lemma AliveSplits(cards: seq<Card>)
    requires Record(cards, |cards|) != []
    ensures Candidacy(SortBySize(AliveAll(Record(cards, |cards|), CardIds(cards))), cards)
  {
    var splits := Record(cards, |cards|);
    var all := AliveAll(splits, CardIds(cards));
    forall s | s in all ensures s != [] && forall x <- s :: x in CardIds(cards) {
      var split :| split in splits && s == Alive(split, CardIds(cards));
      var c :| c in cards && split == Seen(c);
      SeesItself(c);
      assert c.id in s;
    }
  }

  /** The nodes that shut down according to the cards, in the order in which they were read; none without a split. */
  function Elect(cards: seq<Card>): (r: Option<seq<string>>)
  {
    var splits := Record(cards, |cards|);
    if splits == [] then None
    else
      AliveSplits(cards);
      Some(Candidates(SortBySize(AliveAll(splits, CardIds(cards))), cards))
  }

  /* ---------- the lists compute what is meant ---------- */

  predicate DistinctCards(cards: seq<Card>)
  {
    forall i, j :: 0 <= i < j < |cards| ==> cards[i].id != cards[j].id
  }

  function SetOf<T(!new)>(s: seq<T>): set<T>
  {
    set x | x in s
  }

  lemma {:induction false} SizeOfDistinct<T(!new)>(s: seq<T>)
    requires forall i, j :: 0 <= i < j < |s| ==> s[i] != s[j]
    ensures |SetOf(s)| == |s|
  {
    if s != [] {
      SizeOfDistinct(s[1..]);
      assert SetOf(s) == SetOf(s[1..]) + {s[0]};
    }
  }

  lemma DistinctSetOf(cards: seq<Card>)
    requires DistinctCards(cards)
    ensures |SetOf(cards)| == |cards| && DistinctIds(SetOf(cards)) && CardIds(cards) == Ids(SetOf(cards))
    ensures SetOf(Record(cards, |cards|)) == Splits(SetOf(cards))
  {
    SizeOfDistinct(cards);
    forall c, d | c in cards && d in cards && c.id == d.id ensures c == d {
      var i :| 0 <= i < |cards| && cards[i] == c;
      var j :| 0 <= j < |cards| && cards[j] == d;
    }
  }

  predicate Distinct(s: seq<seq<string>>)
  {
    forall i, j :: 0 <= i < j < |s| ==> s[i] != s[j]
  }

  lemma TailOfDistinct(s: seq<seq<string>>)
    requires Distinct(s) && s != []
    ensures Distinct(s[1..]) && s[0] !in SetOf(s[1..]) && SetOf(s) == SetOf(s[1..]) + {s[0]}
  {
  }

  lemma OneMoreWith(rest: set<seq<string>>, s: seq<string>, x: string)
    requires s !in rest
    ensures |SplitsWith(rest + {s}, x)| == |SplitsWith(rest, x)| + if x in s then 1 else 0
  {
    if x in s {
      assert SplitsWith(rest + {s}, x) == SplitsWith(rest, x) + {s};
    } else {
      assert SplitsWith(rest + {s}, x) == SplitsWith(rest, x);
    }
  }

  lemma {:induction false} HoldersAreSplits(s: seq<seq<string>>, ids: set<string>, x: string)
    requires Distinct(s) && x in ids
    ensures Holders(AliveAll(s, ids), x) == |SplitsWith(SetOf(s), x)|
  {
    if s != [] {
      TailOfDistinct(s);
      HoldersAreSplits(s[1..], ids, x);
      OneMoreWith(SetOf(s[1..]), s[0], x);
      AliveAllTail(s, ids);
    } else {
      assert SplitsWith(SetOf(s), x) == {};
    }
  }

  lemma AliveAllTail(s: seq<seq<string>>, ids: set<string>)
    requires s != []
    ensures AliveAll(s, ids) != [] && AliveAll(s, ids)[0] == Alive(s[0], ids)
            && AliveAll(s, ids)[1..] == AliveAll(s[1..], ids)
  {
  }

  function SplitsOfSize(splits: set<seq<string>>, ids: set<string>, k: nat): set<seq<string>>
  {
    set s | s in splits && |Alive(s, ids)| == k
  }

  lemma OneMoreSplit(rest: set<seq<string>>, s: seq<string>, ids: set<string>, k: nat)
    requires s !in rest
    ensures |SplitsOfSize(rest + {s}, ids, k)| == |SplitsOfSize(rest, ids, k)| + if |Alive(s, ids)| == k then 1 else 0
  {
    if |Alive(s, ids)| == k {
      assert SplitsOfSize(rest + {s}, ids, k) == SplitsOfSize(rest, ids, k) + {s};
    } else {
      assert SplitsOfSize(rest + {s}, ids, k) == SplitsOfSize(rest, ids, k);
    }
  }

  lemma {:induction false} OfSizeAreSplits(s: seq<seq<string>>, ids: set<string>, k: nat)
    requires Distinct(s)
    ensures |OfSize(AliveAll(s, ids), k)| == |SplitsOfSize(SetOf(s), ids, k)|
  {
    if s != [] {
      TailOfDistinct(s);
      OfSizeAreSplits(s[1..], ids, k);
      OneMoreSplit(SetOf(s[1..]), s[0], ids, k);
      AliveAllTail(s, ids);
    } else {
      assert SplitsOfSize(SetOf(s), ids, k) == {};
    }
  }

  /** The eligible lists are the eligible splits without their dead nodes. */
  lemma EligibleLists(splits: seq<seq<string>>, ids: set<string>, alive: seq<seq<string>>, eligible: seq<seq<string>>)
    requires splits != [] && Distinct(splits)
    requires alive == SortBySize(AliveAll(splits, ids)) && eligible == OfSize(alive, |alive[0]|)
    ensures |eligible| == |Eligible(SetOf(splits), ids)|
    ensures forall s :: s in Eligible(SetOf(splits), ids) ==> Alive(s, ids) in eligible
    ensures forall t :: t in eligible ==> exists s :: s in Eligible(SetOf(splits), ids) && t == Alive(s, ids)
  {
    var all := AliveAll(splits, ids);
    var k := |alive[0]|;
    SortBySizeFacts(all, k, "");
    OfSizeAreSplits(splits, ids, k);
    SmallestAlive(splits, ids, k);
    forall t | t in eligible ensures exists s :: s in Eligible(SetOf(splits), ids) && t == Alive(s, ids) {
      assert t in all;
      var s :| s in splits && t == Alive(s, ids);
      assert s in SplitsOfSize(SetOf(splits), ids, k);
    }
    forall s | s in SplitsOfSize(SetOf(splits), ids, k) ensures Alive(s, ids) in eligible {
      assert Alive(s, ids) in all;
    }
  }

  lemma SmallestAlive(splits: seq<seq<string>>, ids: set<string>, k: nat)
    requires splits != [] && k == |SortBySize(AliveAll(splits, ids))[0]|
    ensures Eligible(SetOf(splits), ids) == SplitsOfSize(SetOf(splits), ids, k)
  {
    var all := AliveAll(splits, ids);
    assert SortBySize(all)[0] in all;
    var least :| least in splits && |Alive(least, ids)| == k;
    forall s | s in splits ensures k <= |Alive(s, ids)| {
      assert Alive(s, ids) in all;
    }
    forall s ensures s in Eligible(SetOf(splits), ids) <==> s in SplitsOfSize(SetOf(splits), ids, k) {
    }
  }

  lemma NodesOfLists(splits: seq<seq<string>>, ids: set<string>, alive: seq<seq<string>>, eligible: seq<seq<string>>)
    requires splits != [] && Distinct(splits)
    requires alive == SortBySize(AliveAll(splits, ids)) && eligible == OfSize(alive, |alive[0]|)
    ensures SetOf(Uniq(Flatten(eligible))) == EligibleNodes(SetOf(splits), ids)
  {
    EligibleLists(splits, ids, alive, eligible);
    forall x ensures x in Uniq(Flatten(eligible)) <==> x in EligibleNodes(SetOf(splits), ids) {
    }
  }

  lemma IsolatedLists(splits: seq<seq<string>>, ids: set<string>, alive: seq<seq<string>>, eligible: seq<seq<string>>)
    requires splits != [] && Distinct(splits)
    requires alive == SortBySize(AliveAll(splits, ids)) && eligible == OfSize(alive, |alive[0]|)
    ensures SetOf(Intersection(Xor(alive), Uniq(Flatten(eligible)))) == IsolatedNodes(SetOf(splits), ids)
  {
    NodesOfLists(splits, ids, alive, eligible);
    var nodes := Uniq(Flatten(eligible));
    forall x ensures x in Intersection(Xor(alive), nodes) <==> x in IsolatedNodes(SetOf(splits), ids) {
      assert x in nodes <==> x in EligibleNodes(SetOf(splits), ids);
      if x in nodes {
        SortBySizeFacts(AliveAll(splits, ids), 0, x);
        HoldersAreSplits(splits, ids, x);
        assert x in Flatten(eligible) && x in Flatten(alive);
      }
    }
  }

  ghost predicate AliveOf(eligible: seq<seq<string>>, splits: set<seq<string>>, ids: set<string>)
  {
    && |eligible| == |splits|
    && (forall t :: t in eligible ==> exists s :: s in splits && t == Alive(s, ids))
  }

  lemma SoleSplit(cards: set<Card>, splits: set<seq<string>>, eligible: seq<seq<string>>)
    requires AliveOf(eligible, splits, Ids(cards)) && |eligible| == 1
    ensures IsPartOf(cards, splits, SetOf(eligible[0]))
  {
    assert eligible[0] in eligible;
    var s :| s in splits && eligible[0] == Alive(s, Ids(cards));
    assert SetOf(eligible[0]) == Members(s) * Ids(cards);
  }

  lemma SplitOfYoungest(cards: seq<Card>, splits: set<seq<string>>, eligible: seq<seq<string>>, isolated: seq<string>)
    requires DistinctCards(cards)
    requires AliveOf(eligible, splits, CardIds(cards))
    requires isolated != [] && (forall x <- isolated :: x in CardIds(cards) && x in Flatten(eligible))
    ensures var first := FirstWith(eligible, YoungestOf(isolated, cards).id);
            IsIsolatedPart(SetOf(cards), splits, SetOf(isolated), SetOf(Intersection(first, isolated)))
  {
    var c := YoungestOf(isolated, cards);
    YoungestIsYoungest(isolated, cards);
    var first := FirstWith(eligible, c.id);
    var s :| s in splits && first == Alive(s, CardIds(cards));
    assert SetOf(Intersection(first, isolated)) == Members(s) * SetOf(isolated);
    assert c.id in s;
  }

  lemma SoleYoungest(cards: seq<Card>, nodes: seq<string>)
    requires DistinctCards(cards)
    requires nodes != [] && (forall x <- nodes :: x in CardIds(cards))
    ensures IsYoungest(SetOf(cards), SetOf(nodes), SetOf([YoungestOf(nodes, cards).id]))
  {
    var c := YoungestOf(nodes, cards);
    YoungestIsYoungest(nodes, cards);
    assert SetOf([c.id]) == {c.id};
  }

  lemma EmptySetOf(s: seq<string>)
    ensures SetOf(s) == {} <==> s == []
  {
    if s != [] {
      assert s[0] in SetOf(s);
    }
  }

  lemma CandidatesAreChosen(cards: seq<Card>, splits: set<seq<string>>, alive: seq<seq<string>>)
    requires DistinctCards(cards) && Candidacy(alive, cards)
    requires AliveOf(OfSize(alive, |alive[0]|), splits, CardIds(cards))
    ensures var nodes := Uniq(Flatten(OfSize(alive, |alive[0]|)));
            Chosen(SetOf(cards), splits, SetOf(Intersection(Xor(alive), nodes)), SetOf(nodes),
                SetOf(Candidates(alive, cards)))
  {
    var eligible := OfSize(alive, |alive[0]|);
    var isolated := Intersection(Xor(alive), Uniq(Flatten(eligible)));
    EmptySetOf(isolated);
    if |eligible| == 1 {
      SoleIsChosen(cards, splits, alive);
    } else if isolated != [] {
      IsolatedIsChosen(cards, splits, alive, eligible, isolated);
    } else {
      YoungestIsChosen(cards, alive);
    }
  }

  lemma SoleIsChosen(cards: seq<Card>, splits: set<seq<string>>, alive: seq<seq<string>>)
    requires Candidacy(alive, cards) && |OfSize(alive, |alive[0]|)| == 1
    requires AliveOf(OfSize(alive, |alive[0]|), splits, CardIds(cards))
    ensures IsPartOf(SetOf(cards), splits, SetOf(Candidates(alive, cards)))
  {
    assert Ids(SetOf(cards)) == CardIds(cards);
    SoleSplit(SetOf(cards), splits, OfSize(alive, |alive[0]|));
  }

  lemma IsolatedIsChosen(cards: seq<Card>, splits: set<seq<string>>, alive: seq<seq<string>>,
                         eligible: seq<seq<string>>,
                         isolated: seq<string>)
    requires DistinctCards(cards) && Candidacy(alive, cards) && eligible == OfSize(alive, |alive[0]|) && |eligible| != 1
    requires AliveOf(eligible, splits, CardIds(cards))
    requires isolated == Intersection(Xor(alive), Uniq(Flatten(eligible))) && isolated != []
    ensures IsIsolatedPart(SetOf(cards), splits, SetOf(isolated), SetOf(Candidates(alive, cards)))
  {
    SplitOfYoungest(cards, splits, eligible, isolated);
  }

  lemma YoungestIsChosen(cards: seq<Card>, alive: seq<seq<string>>)
    requires DistinctCards(cards) && Candidacy(alive, cards) && |OfSize(alive, |alive[0]|)| != 1
    requires Intersection(Xor(alive), Uniq(Flatten(OfSize(alive, |alive[0]|)))) == []
    ensures IsYoungest(SetOf(cards), SetOf(Uniq(Flatten(OfSize(alive, |alive[0]|)))), SetOf(Candidates(alive, cards)))
  {
    var eligible := OfSize(alive, |alive[0]|);
    var nodes := Uniq(Flatten(eligible));
    assert alive[0] in eligible && alive[0][0] in nodes;
    SoleYoungest(cards, nodes);
  }

  lemma CandidatesAreElected(cards: seq<Card>, splits: seq<seq<string>>, alive: seq<seq<string>>)
    requires DistinctCards(cards) && splits == Record(cards, |cards|) != []
    requires alive == SortBySize(AliveAll(splits, CardIds(cards))) && Candidacy(alive, cards)
    ensures Elected(SetOf(cards), SetOf(Candidates(alive, cards)))
  {
    var ids := CardIds(cards);
    DistinctSetOf(cards);
    var eligible := OfSize(alive, |alive[0]|);
    EligibleLists(splits, ids, alive, eligible);
    NodesOfLists(splits, ids, alive, eligible);
    IsolatedLists(splits, ids, alive, eligible);
    CandidatesAreChosen(cards, Eligible(SetOf(splits), ids), alive);
  }

  lemma TheOneFound(cards: seq<Card>, c: Card)
    requires DistinctCards(cards) && c in cards
    ensures Find(cards, c.id) == c
  {
    DistinctSetOf(cards);
  }

  lemma {:induction false} YoungestIsYoungest(ids: seq<string>, cards: seq<Card>)
    requires DistinctCards(cards) && ids != [] && forall x :: x in ids ==> x in CardIds(cards)
    ensures Youngest(YoungestOf(ids, cards), SetOf(ids), SetOf(cards))
  {
    var before, last := ids[..|ids| - 1], ids[|ids| - 1];
    assert ids == before + [last];
    if |ids| > 1 {
      YoungestIsYoungest(before, cards);
    }
    forall d | d in cards && d.id in ids ensures d.birthdate <= YoungestOf(ids, cards).birthdate {
      TheOneFound(cards, d);
      assert d.id == last || d.id in before;
    }
  }

  /** The election on lists, whatever their order, elects what is meant; it is held when there is a split. */
  lemma ElectIsElected(cards: seq<Card>)
    requires DistinctCards(cards)
    ensures Elect(cards).None? <==> Splits(SetOf(cards)) == {}
    ensures Elect(cards).Some? ==> Elected(SetOf(cards), SetOf(Elect(cards).value))
  {
    DistinctSetOf(cards);
    var splits := Record(cards, |cards|);
    if splits == [] {
      assert SetOf(splits) == {};
    } else {
      assert splits[0] in SetOf(splits);
      AliveSplits(cards);
      CandidatesAreElected(cards, splits, SortBySize(AliveAll(splits, CardIds(cards))));
    }
  }

  /* ---------- agreement ---------- */

  /** What the proofs below need to know of the eligible splits, the isolated nodes and the eligible nodes. */
  ghost predicate Ground(cards: set<Card>, splits: set<seq<string>>, eligible: set<seq<string>>, isolated: set<string>,
                         nodes: set<string>)
  {
    && eligible <= splits && isolated <= nodes <= Ids(cards)
    && (forall x <- nodes :: exists s :: s in eligible && x in s)
    && (forall x <- isolated :: |SplitsWith(splits, x)| == 1)
    && (forall s <- eligible :: exists c :: c in cards && c.id in s && s == Seen(c))
  }

  lemma GroundOf(cards: set<Card>)
    ensures var splits := Splits(cards);
            var ids := Ids(cards);
            Ground(cards, splits, Eligible(splits, ids), IsolatedNodes(splits, ids), EligibleNodes(splits, ids))
  {
    forall s | s in Splits(cards) ensures exists c :: c in cards && c.id in s && s == Seen(c) {
      var c :| c in cards && s == Seen(c);
      SeesItself(c);
    }
  }

  /** The youngest isolated nodes are all in the same split. */
  ghost predicate OneYoungestSplit(cards: set<Card>, splits: set<seq<string>>, isolated: set<string>)
  {
    forall c: Card, d: Card :: Youngest(c, isolated, cards) && Youngest(d, isolated, cards) ==>
      SplitsWith(splits, c.id) == SplitsWith(splits, d.id)
  }

  lemma Sole<T>(s: set<T>, x: T, y: T)
    requires |s| == 1 && x in s && y in s
    ensures x == y
  {
    assert |s - {x}| == 0;
    assert y in s - {x} || y == x;
  }

  lemma IsolatedAgrees(cards: set<Card>, splits: set<seq<string>>, eligible: set<seq<string>>, isolated: set<string>,
                       a: set<string>, b: set<string>)
    requires eligible <= splits && forall x <- isolated :: |SplitsWith(splits, x)| == 1
    requires OneYoungestSplit(cards, splits, isolated)
    requires IsIsolatedPart(cards, eligible, isolated, a) && IsIsolatedPart(cards, eligible, isolated, b)
    ensures a == b
  {
    var s, c: Card :| s in eligible && c.id in s && Youngest(c, isolated, cards) && a == Members(s) * isolated;
    var t, d: Card :| t in eligible && d.id in t && Youngest(d, isolated, cards) && b == Members(t) * isolated;
    OnlySplitWith(splits, c.id, s);
    OnlySplitWith(splits, d.id, t);
    assert s in {t};
  }

  lemma OnlySplitWith(splits: set<seq<string>>, x: string, s: seq<string>)
    requires |SplitsWith(splits, x)| == 1 && s in splits && x in s
    ensures SplitsWith(splits, x) == {s}
  {
    SoleSet(SplitsWith(splits, x), s);
  }

  lemma SoleSet<T>(s: set<T>, x: T)
    requires |s| == 1 && x in s
    ensures s == {x}
  {
    forall y | y in s ensures y == x {
      Sole(s, x, y);
    }
  }

  /* ---------- the first of the youngest, in the order in which the code meets them ---------- */

  ghost predicate Meets(s: seq<string>, among: set<string>)
  {
    exists x :: x in s && x in among
  }

  function FirstIn(s: seq<string>, among: set<string>): (x: string)
    requires Meets(s, among)
    ensures x in s && x in among
  {
    if s[0] in among then s[0] else FirstIn(s[1..], among)
  }

  /** In a sorted list, the first one is the least one. */
  lemma {:induction false} FirstIsLeast(s: seq<string>, among: set<string>)
    requires Sorted(s) && Meets(s, among)
    ensures forall x :: x in s && x in among ==> AtMost(FirstIn(s, among), x)
  {
    if s[0] !in among {
      FirstIsLeast(s[1..], among);
      assert s == [s[0]] + s[1..];
    }
  }

  lemma {:induction false} FirstOfConcat(a: seq<string>, b: seq<string>, among: set<string>)
    ensures Meets(a + b, among) <==> Meets(a, among) || Meets(b, among)
    ensures Meets(a, among) ==> FirstIn(a + b, among) == FirstIn(a, among)
    ensures !Meets(a, among) && Meets(b, among) ==> FirstIn(a + b, among) == FirstIn(b, among)
  {
    if a == [] {
      assert a + b == b;
    } else {
      FirstOfConcat(a[1..], b, among);
      assert (a + b)[1..] == a[1..] + b && (a + b)[0] == a[0];
      assert a == [a[0]] + a[1..];
    }
  }

  lemma {:induction false} FirstOfUniq(s: seq<string>, among: set<string>)
    requires Meets(s, among)
    ensures Meets(Uniq(s), among) && FirstIn(Uniq(s), among) == FirstIn(s, among)
  {
    var before, last := s[..|s| - 1], s[|s| - 1];
    assert s == before + [last];
    FirstOfConcat(before, [last], among);
    FirstOfConcat(Uniq(before), [last], among);
    if Meets(before, among) {
      FirstOfUniq(before, among);
    } else {
      assert [last][0] == last;
    }
  }

  lemma {:induction false} FirstOfHeldOnce(s: seq<string>, lists: seq<seq<string>>, among: set<string>)
    requires Meets(s, among) && forall x <- among :: Holders(lists, x) == 1
    ensures Meets(HeldOnce(s, lists), among) && FirstIn(HeldOnce(s, lists), among) == FirstIn(s, among)
  {
    var kept := HeldOnce(s, lists);
    assert s == [s[0]] + s[1..];
    if s[0] in among {
      assert kept[0] == s[0];
    } else {
      FirstOfHeldOnce(s[1..], lists, among);
      if Holders(lists, s[0]) == 1 {
        assert kept[1..] == HeldOnce(s[1..], lists);
      }
    }
  }

  lemma {:induction false} FirstOfInBoth(s: seq<string>, t: seq<string>, among: set<string>)
    requires Meets(s, among) && forall x <- among :: x in t
    ensures Meets(InBoth(s, t), among) && FirstIn(InBoth(s, t), among) == FirstIn(s, among)
  {
    var kept := InBoth(s, t);
    assert s == [s[0]] + s[1..];
    if s[0] in among {
      assert kept[0] == s[0];
    } else {
      FirstOfInBoth(s[1..], t, among);
      if s[0] in t {
        assert kept[1..] == InBoth(s[1..], t);
      }
    }
  }

  lemma {:induction false} FirstOfAlive(s: seq<string>, ids: set<string>, among: set<string>)
    requires among <= ids
    ensures Meets(Alive(s, ids), among) <==> Meets(s, among)
    ensures Meets(s, among) ==> FirstIn(Alive(s, ids), among) == FirstIn(s, among)
  {
    if s != [] {
      FirstOfAlive(s[1..], ids, among);
      assert s == [s[0]] + s[1..];
      if s[0] in ids {
        assert Alive(s, ids)[1..] == Alive(s[1..], ids);
      }
    }
  }

  /** The first one of several lists is the first one of the first list that has any. */
  lemma {:induction false} FirstOfFlatten(lists: seq<seq<string>>, among: set<string>) returns (t: seq<string>)
    requires Meets(Flatten(lists), among)
    ensures t in lists && Meets(t, among) && FirstIn(Flatten(lists), among) == FirstIn(t, among)
    ensures Meets(lists[0], among) ==> t == lists[0]
  {
    FirstOfConcat(lists[0], Flatten(lists[1..]), among);
    if Meets(lists[0], among) {
      t := lists[0];
    } else {
      t := FirstOfFlatten(lists[1..], among);
    }
  }

  /** The ids born at a given time. */
  function BornAt(ids: seq<string>, cards: seq<Card>, birthdate: int): set<string>
    requires forall x :: x in ids ==> x in CardIds(cards)
  {
    set x | x in ids && Find(cards, x).birthdate == birthdate
  }

  /** Among several that are as young, the code takes the first in its list. */
  lemma {:induction false} YoungestIsFirst(ids: seq<string>, cards: seq<Card>)
    requires ids != [] && forall x :: x in ids ==> x in CardIds(cards)
    ensures var c := YoungestOf(ids, cards);
            var tied := BornAt(ids, cards, c.birthdate);
            c.id in tied && FirstIn(ids, tied) == c.id && c == Find(cards, c.id)
            && forall x :: x in ids ==> Find(cards, x).birthdate <= c.birthdate
  {
    var before, last := ids[..|ids| - 1], ids[|ids| - 1];
    assert ids == before + [last];
    var c := YoungestOf(ids, cards);
    var tied := BornAt(ids, cards, c.birthdate);
    if |ids| > 1 {
      YoungestIsFirst(before, cards);
      var best := YoungestOf(before, cards);
      FirstOfConcat(before, [last], tied);
      if Find(cards, last).birthdate > best.birthdate {
        assert [last][0] == last;
      } else {
        SameFirst(before, tied, BornAt(before, cards, best.birthdate));
      }
    }
  }

  lemma {:induction false} SameFirst(s: seq<string>, a: set<string>, b: set<string>)
    requires Meets(s, b) && forall x :: x in s ==> (x in a <==> x in b)
    ensures Meets(s, a) && FirstIn(s, a) == FirstIn(s, b)
  {
    if s[0] !in b {
      assert s == [s[0]] + s[1..];
      SameFirst(s[1..], a, b);
    }
  }

  ghost function YoungestIds(cards: set<Card>, nodes: set<string>): set<string>
  {
    set c | c in cards && Youngest(c, nodes, cards) :: c.id
  }

  lemma YoungestIsFirstOf(ids: seq<string>, cards: seq<Card>)
    requires DistinctCards(cards) && ids != [] && forall x :: x in ids ==> x in CardIds(cards)
    ensures var tied := YoungestIds(SetOf(cards), SetOf(ids));
            Meets(ids, tied) && YoungestOf(ids, cards).id == FirstIn(ids, tied)
  {
    YoungestIsFirst(ids, cards);
    var c := YoungestOf(ids, cards);
    var tied := YoungestIds(SetOf(cards), SetOf(ids));
    YoungestIsYoungest(ids, cards);
    assert c.id in tied;
    forall x | x in ids ensures x in tied <==> x in BornAt(ids, cards, c.birthdate) {
      var d := Find(cards, x);
      forall e | e in cards && e.id == x ensures e == d {
        TheOneFound(cards, e);
      }
      if d.birthdate == c.birthdate {
        assert Youngest(d, SetOf(ids), SetOf(cards));
      }
    }
    SameFirst(ids, tied, BornAt(ids, cards, c.birthdate));
  }

  /* ---------- agreement ---------- */

  /** The one of these nodes with the least id in the split. */
  ghost predicate Leads(x: string, s: seq<string>, among: set<string>)
  {
    x in s && x in among && forall y :: y in s && y in among ==> AtMost(x, y)
  }

  ghost predicate OneLead(eligible: set<seq<string>>, youngest: set<string>)
  {
    forall s, t, x, y :: s in eligible && t in eligible && Leads(x, s, youngest) && Leads(y, t, youngest) ==> x == y
  }

  /** Splits are sorted, so the first youngest node that the code meets in one of them has the least id. */
  lemma FirstLeads(cards: set<Card>, s: seq<string>, among: set<string>, x: string)
    requires s in Splits(cards) && Meets(s, among)
    ensures Leads(x, s, among) <==> x == FirstIn(s, among)
  {
    var c :| c in cards && s == Seen(c);
    SortSorts(c.topology + [c.id]);
    FirstIsLeast(s, among);
    if Leads(x, s, among) {
      AtMostIsTotal(x, FirstIn(s, among));
    }
  }

  /**
   * No tie of birthdates matters: the youngest isolated nodes are in one split, or, without isolated
   * nodes, in all the eligible splits that hold some of the youngest nodes the same one has the least id.
   */
  ghost predicate Determined(cards: set<Card>)
  {
    var ids := Ids(cards);
    var splits := Splits(cards);
    var eligible := Eligible(splits, ids);
    var isolated := IsolatedNodes(splits, ids);
    if |eligible| == 1 then true
    else if isolated != {} then OneYoungestSplit(cards, splits, isolated)
    else OneLead(eligible, YoungestIds(cards, EligibleNodes(splits, ids)))
  }

  lemma DistinctBirthdatesDetermine(cards: set<Card>)
    requires DistinctBirthdates(cards)
    ensures Determined(cards)
  {
  }

  ghost predicate IsOrder(order: seq<Card>, cards: set<Card>)
  {
    SetOf(order) == cards && DistinctCards(order)
  }

  ghost predicate SameVerdict(a: Option<seq<string>>, b: Option<seq<string>>)
  {
    (a.None? <==> b.None?) && (a.Some? ==> SetOf(a.value) == SetOf(b.value))
  }

  lemma {:induction false} RecordStarts(cards: seq<Card>, i: nat, count: nat)
    requires 1 <= i <= |cards| && |Seen(cards[0])| != count
    ensures Record(cards[..i], count) != [] && Record(cards[..i], count)[0] == Seen(cards[0])
  {
    if i == 1 {
      assert cards[..1] == [cards[0]];
      RecordOne(cards[0], count);
    } else {
      RecordStarts(cards, i - 1, count);
      RecordNext(cards, i - 1, count);
    }
  }

  lemma RecordOne(c: Card, count: nat)
    requires |Seen(c)| != count
    ensures Record([c], count) == [Seen(c)]
  {
    assert [c][..0] == [];
  }

  /** An eligible split whose owner's card is read first comes first in all the lists. */
  lemma FirstListed(order: seq<Card>, cards: set<Card>, s: seq<string>)
    requires IsOrder(order, cards) && order != [] && Seen(order[0]) == s && s in Eligible(Splits(cards), Ids(cards))
    ensures var splits := Record(order, |order|);
            splits != [] && Candidacy(SortBySize(AliveAll(splits, CardIds(order))), order)
    ensures var alive := SortBySize(AliveAll(Record(order, |order|), CardIds(order)));
            alive[0] == Alive(s, Ids(cards)) && OfSize(alive, |alive[0]|)[0] == alive[0]
  {
    DistinctSetOf(order);
    assert |s| != |order|;
    assert order[..|order|] == order;
    RecordStarts(order, |order|, |order|);
    AliveSplits(order);
    var ids := CardIds(order);
    var splits := Record(order, |order|);
    var all := AliveAll(splits, ids);
    var alive := SortBySize(all);
    var k := |alive[0]|;
    SortBySizeFacts(all, k, "");
    SmallestAlive(splits, ids, k);
    assert s in SplitsOfSize(SetOf(splits), ids, k);
    assert OfSize(all, k)[0] == all[0];
  }

  ghost predicate NoneStandsOut(cards: set<Card>)
  {
    |Eligible(Splits(cards), Ids(cards))| != 1 && IsolatedNodes(Splits(cards), Ids(cards)) == {}
  }

  /** The election on lists without isolated nodes. */
  lemma CandidatesLead(order: seq<Card>, alive: seq<seq<string>>) returns (t: seq<string>)
    requires DistinctCards(order) && Candidacy(alive, order) && |OfSize(alive, |alive[0]|)| != 1
    requires Intersection(Xor(alive), Uniq(Flatten(OfSize(alive, |alive[0]|)))) == []
    ensures var eligible := OfSize(alive, |alive[0]|);
            var youngest := YoungestIds(SetOf(order), SetOf(Uniq(Flatten(eligible))));
            && t in eligible && Meets(t, youngest) && Candidates(alive, order) == [FirstIn(t, youngest)]
            && (Meets(eligible[0], youngest) ==> t == eligible[0])
  {
    var eligible := OfSize(alive, |alive[0]|);
    var nodes := Uniq(Flatten(eligible));
    assert alive[0] in eligible && alive[0][0] in nodes;
    YoungestIsFirstOf(nodes, order);
    var youngest := YoungestIds(SetOf(order), SetOf(nodes));
    assert Meets(Flatten(eligible), youngest);
    FirstOfUniq(Flatten(eligible), youngest);
    t := FirstOfFlatten(eligible, youngest);
  }

  lemma LeadOfLists(order: seq<Card>, cards: set<Card>, splits: seq<seq<string>>, alive: seq<seq<string>>,
                    eligible: seq<seq<string>>)
    returns (t: seq<string>)
    requires IsOrder(order, cards) && NoneStandsOut(cards) && splits == Record(order, |order|) != []
    requires alive == SortBySize(AliveAll(splits, CardIds(order))) && eligible == OfSize(alive, |alive[0]|)
    requires Candidacy(alive, order)
    ensures var youngest := YoungestIds(cards, EligibleNodes(Splits(cards), Ids(cards)));
            && t in eligible && Meets(t, youngest) && Candidates(alive, order) == [FirstIn(t, youngest)]
            && (Meets(eligible[0], youngest) ==> t == eligible[0])
  {
    ListsOfOrder(order, cards, splits, alive, eligible);
    EmptySetOf(Intersection(Xor(alive), Uniq(Flatten(eligible))));
    t := CandidatesLead(order, alive);
  }

  /** The lists made from the cards in some order hold what the sets hold. */
  lemma ListsOfOrder(order: seq<Card>, cards: set<Card>, splits: seq<seq<string>>, alive: seq<seq<string>>,
                     eligible: seq<seq<string>>)
    requires IsOrder(order, cards) && splits == Record(order, |order|) != []
    requires alive == SortBySize(AliveAll(splits, CardIds(order))) && eligible == OfSize(alive, |alive[0]|)
    ensures |eligible| == |Eligible(Splits(cards), Ids(cards))|
    ensures SetOf(Uniq(Flatten(eligible))) == EligibleNodes(Splits(cards), Ids(cards))
    ensures SetOf(Intersection(Xor(alive), Uniq(Flatten(eligible)))) == IsolatedNodes(Splits(cards), Ids(cards))
  {
    var ids := CardIds(order);
    DistinctSetOf(order);
    EligibleLists(splits, ids, alive, eligible);
    NodesOfLists(splits, ids, alive, eligible);
    IsolatedLists(splits, ids, alive, eligible);
  }

  /** Without isolated nodes the first youngest node of some eligible split is designated. */
  lemma ElectLead(order: seq<Card>, cards: set<Card>) returns (s: seq<string>)
    requires IsOrder(order, cards) && NoneStandsOut(cards) && Splits(cards) != {}
    ensures var youngest := YoungestIds(cards, EligibleNodes(Splits(cards), Ids(cards)));
            && s in Eligible(Splits(cards), Ids(cards)) && Meets(s, youngest)
            && Elect(order) == Some([FirstIn(s, youngest)])
  {
    ElectIsElected(order);
    AliveSplits(order);
    var splits := Record(order, |order|);
    var alive := SortBySize(AliveAll(splits, CardIds(order)));
    var eligible := OfSize(alive, |alive[0]|);
    var t := LeadOfLists(order, cards, splits, alive, eligible);
    s := SplitOfList(order, cards, splits, alive, t);
    FirstOfAlive(s, Ids(cards), YoungestIds(cards, EligibleNodes(Splits(cards), Ids(cards))));
  }

  lemma SplitOfList(order: seq<Card>, cards: set<Card>, splits: seq<seq<string>>, alive: seq<seq<string>>,
                    t: seq<string>)
    returns (s: seq<string>)
    requires IsOrder(order, cards) && splits == Record(order, |order|) != []
    requires alive == SortBySize(AliveAll(splits, CardIds(order))) && t in OfSize(alive, |alive[0]|)
    ensures s in Eligible(Splits(cards), Ids(cards)) && t == Alive(s, Ids(cards))
  {
    DistinctSetOf(order);
    EligibleLists(splits, CardIds(order), alive, OfSize(alive, |alive[0]|));
    s :| s in Eligible(SetOf(splits), Ids(cards)) && t == Alive(s, Ids(cards));
  }

  lemma ElectLeadOfFirst(order: seq<Card>, cards: set<Card>, s: seq<string>)
    requires IsOrder(order, cards) && NoneStandsOut(cards) && order != [] && Seen(order[0]) == s
    requires s in Eligible(Splits(cards), Ids(cards))
    requires Meets(s, YoungestIds(cards, EligibleNodes(Splits(cards), Ids(cards))))
    ensures Elect(order) == Some([FirstIn(s, YoungestIds(cards, EligibleNodes(Splits(cards), Ids(cards))))])
  {
    FirstListed(order, cards, s);
    var splits := Record(order, |order|);
    var alive := SortBySize(AliveAll(splits, CardIds(order)));
    FirstOfAlive(s, Ids(cards), YoungestIds(cards, EligibleNodes(Splits(cards), Ids(cards))));
    var t := LeadOfLists(order, cards, splits, alive, OfSize(alive, |alive[0]|));
  }

  /* ---------- survival ---------- */

  lemma {:induction false} Smallest(splits: set<seq<string>>, ids: set<string>) returns (least: seq<string>)
    requires splits != {}
    ensures least in Eligible(splits, ids)
  {
    var s :| s in splits;
    least := s;
    if splits != {s} {
      var other := Smallest(splits - {s}, ids);
      if |Alive(other, ids)| < |Alive(s, ids)| {
        least := other;
      }
      assert forall t :: t in splits ==> t == s || t in splits - {s};
    }
  }

  lemma PartIsAlive(cards: set<Card>, eligible: set<seq<string>>, candidates: set<string>)
    requires IsPartOf(cards, eligible, candidates) && forall s <- eligible :: exists c :: c in cards && c.id in s
    ensures candidates != {} && candidates <= Ids(cards)
  {
    var s :| s in eligible && candidates == Members(s) * Ids(cards);
    var c :| c in cards && c.id in s;
    assert c.id in candidates;
  }

  lemma IsolatedPartIsAlive(cards: set<Card>, eligible: set<seq<string>>, isolated: set<string>,
                            candidates: set<string>)
    requires IsIsolatedPart(cards, eligible, isolated, candidates)
    ensures candidates != {} && candidates <= isolated
  {
    var s, c: Card :| s in eligible && c.id in s && Youngest(c, isolated, cards) && candidates == Members(s) * isolated;
    assert c.id in candidates;
  }

  lemma YoungestIsAlive(cards: set<Card>, nodes: set<string>, candidates: set<string>)
    requires IsYoungest(cards, nodes, candidates)
    ensures candidates != {} && candidates <= Ids(cards)
  {
  }

  lemma ChosenAreAlive(cards: set<Card>, splits: set<seq<string>>, eligible: set<seq<string>>, isolated: set<string>,
                       nodes: set<string>,
                       candidates: set<string>)
    requires Ground(cards, splits, eligible, isolated, nodes) && Chosen(cards, eligible, isolated, nodes, candidates)
    ensures candidates != {} && candidates <= Ids(cards)
  {
    if |eligible| == 1 {
      PartIsAlive(cards, eligible, candidates);
    } else if isolated != {} {
      IsolatedPartIsAlive(cards, eligible, isolated, candidates);
    } else {
      YoungestIsAlive(cards, nodes, candidates);
    }
  }

  /** Candidates exist, and they are nodes that have a card. */
  lemma ElectedAreAlive(cards: set<Card>, candidates: set<string>)
    requires Elected(cards, candidates)
    ensures candidates != {} && candidates <= Ids(cards)
  {
    GroundOf(cards);
    var ids := Ids(cards);
    var splits := Splits(cards);
    ChosenAreAlive(cards, splits, Eligible(splits, ids), IsolatedNodes(splits, ids), EligibleNodes(splits, ids),
        candidates);
  }

  lemma IsolatedPartLeavesSome(cards: set<Card>, splits: set<seq<string>>, eligible: set<seq<string>>,
                               isolated: set<string>,
                               candidates: set<string>)
    requires |eligible| > 1 && eligible <= splits && forall x <- isolated :: |SplitsWith(splits, x)| == 1
    requires forall s <- eligible :: exists c :: c in cards && c.id in s && s == Seen(c)
    requires IsIsolatedPart(cards, eligible, isolated, candidates)
    ensures candidates != Ids(cards)
  {
    var s, c: Card :| s in eligible && c.id in s && Youngest(c, isolated, cards) && candidates == Members(s) * isolated;
    var t := Another(eligible, s);
    var d :| d in cards && d.id in t && t == Seen(d);
    assert d.id in Ids(cards);
    if d.id in isolated && d.id in s {
      NotInTwoSplits(splits, d.id, s, t);
    }
  }

  lemma NotInTwoSplits(splits: set<seq<string>>, x: string, s: seq<string>, t: seq<string>)
    requires |SplitsWith(splits, x)| == 1 && s in splits && t in splits && x in s && s != t
    ensures x !in t
  {
    OnlySplitWith(splits, x, s);
    assert t !in SplitsWith(splits, x);
  }

  lemma YoungestLeavesSome(cards: set<Card>, eligible: set<seq<string>>, nodes: set<string>, candidates: set<string>)
    requires DistinctIds(cards) && |eligible| > 1
    requires forall s <- eligible :: exists c :: c in cards && c.id in s && s == Seen(c)
    requires IsYoungest(cards, nodes, candidates)
    ensures candidates != Ids(cards)
  {
    var c: Card :| Youngest(c, nodes, cards) && candidates == {c.id};
    var t := Another(eligible, Seen(c));
    var d :| d in cards && d.id in t && t == Seen(d);
    assert d.id in Ids(cards);
  }

  lemma TwoEligibleLeaveSome(cards: set<Card>, splits: set<seq<string>>, eligible: set<seq<string>>,
                             isolated: set<string>,
                             nodes: set<string>, candidates: set<string>)
    requires DistinctIds(cards) && |eligible| > 1
    requires Ground(cards, splits, eligible, isolated, nodes) && Chosen(cards, eligible, isolated, nodes, candidates)
    ensures candidates != Ids(cards)
  {
    if isolated != {} {
      IsolatedPartLeavesSome(cards, splits, eligible, isolated, candidates);
    } else {
      YoungestLeavesSome(cards, eligible, nodes, candidates);
    }
  }

  lemma Another<T>(s: set<T>, x: T) returns (y: T)
    requires |s| > 1
    ensures y in s && y != x
  {
    assert s - {x} == {} ==> s == {x} || s == {};
    y :| y in s - {x};
  }

  lemma NotSole<T(!new)>(s: set<T>, x: T)
    requires x in s && |s| != 1
    ensures |s| > 1 && forall y :: s != {y}
  {
  }

  lemma SoleSurvival(cards: set<Card>, eligible: set<seq<string>>, candidates: set<string>)
    requires |eligible| == 1 && IsPartOf(cards, eligible, candidates)
    ensures candidates == Ids(cards) <==> exists s :: eligible == {s} && Ids(cards) <= Members(s)
  {
    var s :| s in eligible && candidates == Members(s) * Ids(cards);
    SoleSet(eligible, s);
    assert forall t :: eligible == {t} ==> t in eligible && t == s;
  }

  /** All the nodes shut down exactly when the smallest split is alone of its size and holds them all. */
  lemma SurvivalCondition(cards: set<Card>, candidates: set<string>)
    requires DistinctIds(cards) && Elected(cards, candidates) && Splits(cards) != {}
    ensures candidates == Ids(cards)
            <==> exists s :: Eligible(Splits(cards), Ids(cards)) == {s} && Ids(cards) <= Members(s)
  {
    var ids := Ids(cards);
    var splits := Splits(cards);
    var eligible := Eligible(splits, ids);
    var least := Smallest(splits, ids);
    if |eligible| == 1 {
      SoleSurvival(cards, eligible, candidates);
    } else {
      NotSole(eligible, least);
      GroundOf(cards);
      TwoEligibleLeaveSome(cards, splits, eligible, IsolatedNodes(splits, ids), EligibleNodes(splits, ids), candidates);
    }
  }

  /** Each node's topology names other existing nodes, each once. */
  ghost predicate Healthy(cards: set<Card>)
  {
    forall c <- cards ::
      && c.id !in c.topology
      && (forall i, j :: 0 <= i < j < |c.topology| ==> c.topology[i] != c.topology[j])
      && (forall x <- c.topology :: x in Ids(cards))
  }

  ghost predicate SeesAll(c: Card, cards: set<Card>)
  {
    forall x <- Ids(cards) :: x == c.id || x in c.topology
  }

  lemma {:induction false} IdsAreAsMany(cards: set<Card>)
    requires DistinctIds(cards)
    ensures |Ids(cards)| == |cards|
  {
    if cards != {} {
      var c :| c in cards;
      IdsAreAsMany(cards - {c});
      assert Ids(cards) == Ids(cards - {c}) + {c.id};
      assert c.id !in Ids(cards - {c});
    }
  }

  lemma SplitIffBlind(c: Card, cards: set<Card>)
    requires DistinctIds(cards) && Healthy(cards) && c in cards
    ensures |Seen(c)| != |cards| <==> !SeesAll(c, cards)
    ensures Members(Seen(c)) == SetOf(c.topology + [c.id])
  {
    var seen := c.topology + [c.id];
    IdsAreAsMany(cards);
    SizeOfDistinct(seen);
    assert SetOf(seen) <= Ids(cards);
    forall x ensures x in Seen(c) <==> x in seen {
      assert x in Seen(c) <==> x in multiset(Seen(c));
      assert x in seen <==> x in multiset(seen);
    }
    if |Seen(c)| == |cards| {
      Full(SetOf(seen), Ids(cards));
    } else {
      assert SetOf(seen) != Ids(cards);
      var x :| x in Ids(cards) && x !in SetOf(seen);
    }
  }

  lemma Full<T>(s: set<T>, t: set<T>)
    requires s <= t && |s| == |t|
    ensures s == t
  {
    assert |t - s| == |t| - |s|;
  }

  /** The ids in a topology that belong to no existing node, and the other nodes it does not name. */
  function Dead(c: Card, ids: set<string>): set<string>
  {
    set x | x in c.topology && x !in ids
  }

  function Missed(c: Card, ids: set<string>): set<string>
  {
    set x | x in ids && x != c.id && x !in c.topology
  }

  /** Topologies are sets of other nodes, existing or not. */
  ghost predicate TopologiesAreSets(cards: set<Card>)
  {
    forall c <- cards ::
      && c.id !in c.topology
      && (forall i, j :: 0 <= i < j < |c.topology| ==> c.topology[i] != c.topology[j])
  }

  lemma SplitCounts(c: Card, cards: set<Card>)
    requires DistinctIds(cards) && TopologiesAreSets(cards) && c in cards
    ensures |Seen(c)| != |cards| <==> |Dead(c, Ids(cards))| != |Missed(c, Ids(cards))|
  {
    var seen, ids := c.topology + [c.id], Ids(cards);
    SizeOfDistinct(seen);
    IdsAreAsMany(cards);
    var dead, missed := Dead(c, ids), Missed(c, ids);
    CountBoth(SetOf(seen), ids, dead, missed);
    assert |Seen(c)| == |SetOf(seen)|;
  }

  lemma CountBoth(seen: set<string>, ids: set<string>, dead: set<string>, missed: set<string>)
    requires dead == seen - ids && missed == ids - seen
    ensures |seen| - |dead| == |ids| - |missed|
  {
    assert seen == seen * ids + dead;
    assert ids == seen * ids + missed;
  }

  /**
   * What is detected, dead nodes or not: a split is recorded exactly when, for some node, the dead
   * nodes it names are not as many as the existing ones it misses.
   */
  lemma SplitIffCountsDiffer(cards: set<Card>)
    requires DistinctIds(cards) && TopologiesAreSets(cards)
    ensures Splits(cards) != {} <==> exists c <- cards :: |Dead(c, Ids(cards))| != |Missed(c, Ids(cards))|
  {
    if c :| c in cards && |Dead(c, Ids(cards))| != |Missed(c, Ids(cards))| {
      SplitCounts(c, cards);
      assert Seen(c) in Splits(cards);
    }
    forall s | s in Splits(cards) ensures exists c <- cards :: |Dead(c, Ids(cards))| != |Missed(c, Ids(cards))| {
      var c :| c in cards && s == Seen(c) && |Seen(c)| != |cards|;
      SplitCounts(c, cards);
    }
  }

  ghost predicate SomeAreBlind(cards: set<Card>)
  {
    exists c <- cards :: Missed(c, Ids(cards)) != {}
  }

  /**
   * The two ways of being wrong: a split goes unnoticed exactly when, for every node, as many dead nodes
   * make up for those it misses; one is seen where everybody sees everybody exactly when a dead node is named.
   */
  lemma DetectionIsWrongIff(cards: set<Card>)
    requires DistinctIds(cards) && TopologiesAreSets(cards)
    ensures SomeAreBlind(cards) && Splits(cards) == {} <==>
            SomeAreBlind(cards) && forall c <- cards :: |Dead(c, Ids(cards))| == |Missed(c, Ids(cards))|
    ensures !SomeAreBlind(cards) && Splits(cards) != {} <==>
            !SomeAreBlind(cards) && exists c <- cards :: Dead(c, Ids(cards)) != {}
  {
    SplitIffCountsDiffer(cards);
    if !SomeAreBlind(cards) {
      forall c | c in cards
        ensures |Dead(c, Ids(cards))| != |Missed(c, Ids(cards))| <==> Dead(c, Ids(cards)) != {}
      {
        assert Missed(c, Ids(cards)) == {};
      }
    }
  }

  /** With healthy topologies, a split is recorded exactly when some node does not see every other one. */
  lemma HealthySplits(cards: set<Card>)
    requires DistinctIds(cards) && Healthy(cards)
    ensures Splits(cards) != {} <==> exists c :: c in cards && !SeesAll(c, cards)
  {
    forall c | c in cards ensures Seen(c) in Splits(cards) <== !SeesAll(c, cards) {
      SplitIffBlind(c, cards);
    }
    forall s | s in Splits(cards) ensures exists c :: c in cards && !SeesAll(c, cards) {
      var c :| c in cards && s == Seen(c) && |Seen(c)| != |cards|;
      SplitIffBlind(c, cards);
    }
  }

  lemma HealthySplitMisses(cards: set<Card>, s: seq<string>)
    requires DistinctIds(cards) && Healthy(cards) && s in Splits(cards)
    ensures !(Ids(cards) <= Members(s))
  {
    var c :| c in cards && s == Seen(c) && |Seen(c)| != |cards|;
    SplitIffBlind(c, cards);
    var x :| x in Ids(cards) && !(x == c.id || x in c.topology);
    assert x !in SetOf(c.topology + [c.id]);
  }

  /* ---------- the check made by each node ---------- */

  /** The node with id `id` shuts down after reading the cards in that order. */
  predicate Leaves(order: seq<Card>, id: string)
  {
    var elected := Elect(order);
    elected.Some? && id in elected.value
  }

  /** Whatever the order in which each node reads the cards, all conclude on the same nodes to shut down. */
  lemma NodesConcludeAlike(cards: set<Card>, a: seq<Card>, b: seq<Card>)
    requires Determined(cards) && IsOrder(a, cards) && IsOrder(b, cards)
    ensures SameVerdict(Elect(a), Elect(b))
  {
    ElectIsElected(a);
    ElectIsElected(b);
    if Splits(cards) != {} {
      if NoneStandsOut(cards) {
        var s := ElectLead(a, cards);
        var t := ElectLead(b, cards);
        var youngest := YoungestIds(cards, EligibleNodes(Splits(cards), Ids(cards)));
        FirstLeads(cards, s, youngest, FirstIn(s, youngest));
        FirstLeads(cards, t, youngest, FirstIn(t, youngest));
      } else {
        StandingOutAgrees(cards, SetOf(Elect(a).value), SetOf(Elect(b).value));
      }
    }
  }

  lemma StandingOutAgrees(cards: set<Card>, a: set<string>, b: set<string>)
    requires Determined(cards) && !NoneStandsOut(cards) && Elected(cards, a) && Elected(cards, b)
    ensures a == b
  {
    var splits := Splits(cards);
    var eligible := Eligible(splits, Ids(cards));
    if |eligible| == 1 {
      SoleAgrees(cards, eligible, a, b);
    } else {
      TiedPartsAgree(cards, splits, eligible, IsolatedNodes(splits, Ids(cards)), a, b);
    }
  }

  lemma TiedPartsAgree(cards: set<Card>, splits: set<seq<string>>, eligible: set<seq<string>>, isolated: set<string>,
                       a: set<string>, b: set<string>)
    requires splits == Splits(cards) && eligible == Eligible(splits, Ids(cards))
             && isolated == IsolatedNodes(splits, Ids(cards))
    requires OneYoungestSplit(cards, splits, isolated)
    requires IsIsolatedPart(cards, eligible, isolated, a) && IsIsolatedPart(cards, eligible, isolated, b)
    ensures a == b
  {
    OnlyInOne(cards);
    IsolatedAgrees(cards, splits, eligible, isolated, a, b);
  }

  lemma OnlyInOne(cards: set<Card>)
    ensures var splits := Splits(cards);
            && Eligible(splits, Ids(cards)) <= splits
            && forall x <- IsolatedNodes(splits, Ids(cards)) :: |SplitsWith(splits, x)| == 1
  {
  }

  lemma SoleAgrees(cards: set<Card>, eligible: set<seq<string>>, a: set<string>, b: set<string>)
    requires |eligible| == 1 && IsPartOf(cards, eligible, a) && IsPartOf(cards, eligible, b)
    ensures a == b
  {
    var s :| s in eligible && a == Members(s) * Ids(cards);
    var t :| t in eligible && b == Members(t) * Ids(cards);
    Sole(eligible, s, t);
  }

  lemma SetOfCons(c: Card, rest: seq<Card>)
    ensures SetOf([c] + rest) == {c} + SetOf(rest)
    ensures DistinctCards(rest) && (forall d <- rest :: d.id != c.id) ==> DistinctCards([c] + rest)
  {
  }

  lemma {:induction false} Enumerate(cards: set<Card>) returns (order: seq<Card>)
    requires DistinctIds(cards)
    ensures IsOrder(order, cards)
  {
    if cards == {} {
      order := [];
    } else {
      var c :| c in cards;
      var rest := Enumerate(cards - {c});
      order := [c] + rest;
      SetOfCons(c, rest);
    }
  }

  /** An order that starts with one card and ends with another. */
  lemma OrderFromTo(cards: set<Card>, c: Card, d: Card) returns (order: seq<Card>)
    requires DistinctIds(cards) && c in cards && d in cards && c != d
    ensures IsOrder(order, cards) && order != [] && order[0] == c && order[|order| - 1] == d
  {
    var middle := Enumerate(cards - {c, d});
    var rest := middle + [d];
    SetOfSnoc(middle, d);
    order := [c] + rest;
    SetOfCons(c, rest);
    assert {c} + ((cards - {c, d}) + {d}) == cards;
  }

  lemma SetOfSnoc(rest: seq<Card>, d: Card)
    ensures SetOf(rest + [d]) == SetOf(rest) + {d}
    ensures DistinctCards(rest) && (forall c <- rest :: c.id != d.id) ==> DistinctCards(rest + [d])
  {
  }

  /** The orders in which two nodes read the cards: each one its own card last. */
  ghost predicate TwoReaders(a: seq<Card>, b: seq<Card>, cards: set<Card>)
  {
    IsOrder(a, cards) && IsOrder(b, cards) && a != [] && b != [] && a[|a| - 1] != b[|b| - 1]
  }

  /** Two nodes that see different things can each read the card of the other one first. */
  lemma CrossedOrders(cards: set<Card>, s: seq<string>, t: seq<string>) returns (a: seq<Card>, b: seq<Card>)
    requires DistinctIds(cards) && s in Splits(cards) && t in Splits(cards) && s != t
    ensures TwoReaders(a, b, cards) && Seen(a[0]) == s && Seen(b[0]) == t
  {
    var c :| c in cards && s == Seen(c);
    var d :| d in cards && t == Seen(d);
    a := OrderFromTo(cards, c, d);
    b := OrderFromTo(cards, d, c);
  }

  /** With isolated nodes, reading first the owner of the split of one of the youngest designates its isolated part. */
  lemma ElectIsolatedOfFirst(order: seq<Card>, cards: set<Card>, s: seq<string>, c: Card)
    requires IsOrder(order, cards) && order != [] && Seen(order[0]) == s
    requires s in Eligible(Splits(cards), Ids(cards)) && |Eligible(Splits(cards), Ids(cards))| != 1
    requires var isolated := IsolatedNodes(Splits(cards), Ids(cards)); Youngest(c, isolated, cards) && c.id in s
    ensures Elect(order).Some?
            && SetOf(Elect(order).value) == Members(s) * IsolatedNodes(Splits(cards), Ids(cards))
  {
    FirstListed(order, cards, s);
    var splits := Record(order, |order|);
    var alive := SortBySize(AliveAll(splits, CardIds(order)));
    IsolatedOfLists(order, cards, splits, alive, OfSize(alive, |alive[0]|), s, c);
  }

  lemma IsolatedOfLists(order: seq<Card>, cards: set<Card>, splits: seq<seq<string>>, alive: seq<seq<string>>,
                        eligible: seq<seq<string>>, s: seq<string>, c: Card)
    requires IsOrder(order, cards) && splits == Record(order, |order|) != [] && Candidacy(alive, order)
    requires alive == SortBySize(AliveAll(splits, CardIds(order))) && eligible == OfSize(alive, |alive[0]|)
    requires alive[0] == Alive(s, Ids(cards)) && eligible[0] == alive[0] && |Eligible(Splits(cards), Ids(cards))| != 1
    requires var isolated := IsolatedNodes(Splits(cards), Ids(cards)); Youngest(c, isolated, cards) && c.id in s
    ensures SetOf(Candidates(alive, order)) == Members(s) * IsolatedNodes(Splits(cards), Ids(cards))
  {
    ListsOfOrder(order, cards, splits, alive, eligible);
    var isolated := Intersection(Xor(alive), Uniq(Flatten(eligible)));
    CandidatesIsolated(order, alive, c);
    PartOfAlive(s, Ids(cards), isolated, IsolatedNodes(Splits(cards), Ids(cards)));
  }

  lemma PartOfAlive(s: seq<string>, ids: set<string>, isolated: seq<string>, all: set<string>)
    requires all == SetOf(isolated) && all <= ids
    ensures SetOf(Intersection(Alive(s, ids), isolated)) == Members(s) * all
  {
  }

  /** The election on lists when one of the youngest isolated nodes is in the first list. */
  lemma CandidatesIsolated(order: seq<Card>, alive: seq<seq<string>>, c: Card)
    requires DistinctCards(order) && Candidacy(alive, order)
    requires var eligible := OfSize(alive, |alive[0]|);
             var isolated := Intersection(Xor(alive), Uniq(Flatten(eligible)));
             && |eligible| != 1 && eligible[0] == alive[0]
             && Youngest(c, SetOf(isolated), SetOf(order)) && c.id in alive[0]
    ensures var isolated := Intersection(Xor(alive), Uniq(Flatten(OfSize(alive, |alive[0]|))));
            Candidates(alive, order) == Intersection(alive[0], isolated)
  {
    var eligible := OfSize(alive, |alive[0]|);
    var isolated := Intersection(Xor(alive), Uniq(Flatten(eligible)));
    assert c.id in SetOf(isolated);
    FirstIsolated(order, SetOf(order), alive, eligible, c);
    var y := YoungestOf(isolated, order).id;
    assert FirstWith(eligible, y) == eligible[0];
  }

  /** The youngest isolated node that the code takes is in the first list, if some youngest isolated node is. */
  lemma FirstIsolated(order: seq<Card>, cards: set<Card>, alive: seq<seq<string>>, eligible: seq<seq<string>>, c: Card)
    requires IsOrder(order, cards) && Candidacy(alive, order)
    requires eligible == OfSize(alive, |alive[0]|) && c.id in alive[0]
    requires var isolated := Intersection(Xor(alive), Uniq(Flatten(eligible)));
             Youngest(c, SetOf(isolated), cards)
    ensures var isolated := Intersection(Xor(alive), Uniq(Flatten(eligible)));
            isolated != [] && YoungestOf(isolated, order).id in alive[0]
  {
    var nodes := Uniq(Flatten(eligible));
    var isolated := Intersection(Xor(alive), nodes);
    var youngest := YoungestIds(cards, SetOf(isolated));
    assert c.id in youngest;
    YoungestIsFirstOf(isolated, order);
    assert c.id in Flatten(alive);
    FirstOfHeldOnce(Flatten(alive), alive, youngest);
    FirstOfUniq(HeldOnce(Flatten(alive), alive), youngest);
    FirstOfInBoth(Xor(alive), nodes, youngest);
    FirstOfUniq(InBoth(Xor(alive), nodes), youngest);
    var t := FirstOfFlatten(alive, youngest);
    assert Meets(alive[0], youngest);
  }

  /** When a tie matters, two nodes that read the cards in different orders disagree. */
  lemma UndeterminedDisagrees(cards: set<Card>) returns (a: seq<Card>, b: seq<Card>)
    requires DistinctIds(cards) && !Determined(cards)
    ensures TwoReaders(a, b, cards) && !SameVerdict(Elect(a), Elect(b))
  {
    var splits := Splits(cards);
    var eligible := Eligible(splits, Ids(cards));
    var isolated := IsolatedNodes(splits, Ids(cards));
    if isolated != {} {
      a, b := IsolatedDisagree(cards, splits, eligible, isolated);
    } else {
      var youngest := YoungestIds(cards, EligibleNodes(splits, Ids(cards)));
      var s, t, x, y :| s in eligible && t in eligible && Leads(x, s, youngest) && Leads(y, t, youngest) && x != y;
      FirstLeads(cards, s, youngest, x);
      FirstLeads(cards, t, youngest, y);
      a, b := LeadsDisagree(cards, s, t);
    }
  }

  lemma LeadsDisagree(cards: set<Card>, s: seq<string>, t: seq<string>) returns (a: seq<Card>, b: seq<Card>)
    requires DistinctIds(cards) && NoneStandsOut(cards)
    requires s in Eligible(Splits(cards), Ids(cards)) && t in Eligible(Splits(cards), Ids(cards))
    requires var youngest := YoungestIds(cards, EligibleNodes(Splits(cards), Ids(cards)));
             Meets(s, youngest) && Meets(t, youngest) && FirstIn(s, youngest) != FirstIn(t, youngest)
    ensures TwoReaders(a, b, cards) && !SameVerdict(Elect(a), Elect(b))
  {
    a, b := CrossedOrders(cards, s, t);
    ElectLeadOfFirst(a, cards, s);
    ElectLeadOfFirst(b, cards, t);
    var youngest := YoungestIds(cards, EligibleNodes(Splits(cards), Ids(cards)));
    OnesDiffer(FirstIn(s, youngest), FirstIn(t, youngest));
  }

  lemma OnesDiffer(x: string, y: string)
    requires x != y
    ensures SetOf([x]) != SetOf([y])
  {
    assert x in SetOf([x]) && x !in SetOf([y]);
  }

  lemma IsolatedDisagree(cards: set<Card>, splits: set<seq<string>>, eligible: set<seq<string>>, isolated: set<string>)
    returns (a: seq<Card>, b: seq<Card>)
    requires DistinctIds(cards) && splits == Splits(cards) && eligible == Eligible(splits, Ids(cards))
    requires isolated == IsolatedNodes(splits, Ids(cards))
    requires |eligible| != 1 && !OneYoungestSplit(cards, splits, isolated)
    ensures TwoReaders(a, b, cards) && !SameVerdict(Elect(a), Elect(b))
  {
    var s, t, c, d := TiedOwners(cards, splits, eligible, isolated);
    a, b := CrossedOrders(cards, s, t);
    ElectIsolatedOfFirst(a, cards, s, c);
    ElectIsolatedOfFirst(b, cards, t, d);
    PartsDiffer(s, t, isolated, c.id);
  }

  lemma PartsDiffer(s: seq<string>, t: seq<string>, isolated: set<string>, x: string)
    requires x in isolated && x in s && x !in t
    ensures Members(s) * isolated != Members(t) * isolated
  {
    assert x in Members(s) * isolated && x !in Members(t) * isolated;
  }

  lemma TiedOwners(cards: set<Card>, splits: set<seq<string>>, eligible: set<seq<string>>, isolated: set<string>)
    returns (s: seq<string>, t: seq<string>, c: Card, d: Card)
    requires splits == Splits(cards) && eligible == Eligible(splits, Ids(cards))
             && isolated == IsolatedNodes(splits, Ids(cards))
    requires !OneYoungestSplit(cards, splits, isolated)
    ensures s in eligible && t in eligible && c.id in s && d.id in t && c.id !in t
    ensures Youngest(c, isolated, cards) && Youngest(d, isolated, cards)
  {
    GroundOf(cards);
    s, t, c, d := TiedInTwoSplits(cards, splits, eligible, isolated);
  }

  lemma TiedInTwoSplits(cards: set<Card>, splits: set<seq<string>>, eligible: set<seq<string>>, isolated: set<string>)
    returns (s: seq<string>, t: seq<string>, c: Card, d: Card)
    requires !OneYoungestSplit(cards, splits, isolated) && eligible <= splits
    requires forall x <- isolated :: |SplitsWith(splits, x)| == 1
    requires forall x <- isolated :: exists s :: s in eligible && x in s
    ensures s in eligible && t in eligible && c.id in s && d.id in t && c.id !in t
    ensures Youngest(c, isolated, cards) && Youngest(d, isolated, cards)
  {
    c, d :| Youngest(c, isolated, cards) && Youngest(d, isolated, cards)
      && SplitsWith(splits, c.id) != SplitsWith(splits, d.id);
    s :| s in eligible && c.id in s;
    t :| t in eligible && d.id in t;
    OnlySplitWith(splits, c.id, s);
    OnlySplitWith(splits, d.id, t);
    NotInTwoSplits(splits, c.id, s, t);
  }

  /**
   * Any two nodes conclude alike, whatever the orders in which they read the cards before their own, exactly
   * when no tie of birthdates matters.
   */
  lemma AgreementIffDetermined(cards: set<Card>)
    requires DistinctIds(cards)
    ensures Determined(cards) <==> forall a, b :: TwoReaders(a, b, cards) ==> SameVerdict(Elect(a), Elect(b))
  {
    if Determined(cards) {
      forall a, b | TwoReaders(a, b, cards) ensures SameVerdict(Elect(a), Elect(b)) {
        NodesConcludeAlike(cards, a, b);
      }
    } else {
      var a, b := UndeterminedDisagrees(cards);
    }
  }

  /** Healthy topologies: some node survives the election. */
  lemma HealthySurvival(cards: set<Card>, candidates: set<string>)
    requires DistinctIds(cards) && Healthy(cards) && Elected(cards, candidates) && Splits(cards) != {}
    ensures {} < candidates < Ids(cards)
  {
    ElectedAreAlive(cards, candidates);
    SurvivalCondition(cards, candidates);
    forall s | Eligible(Splits(cards), Ids(cards)) == {s} ensures !(Ids(cards) <= Members(s)) {
      assert s in Eligible(Splits(cards), Ids(cards));
      HealthySplitMisses(cards, s);
    }
  }

  ghost predicate Orders(orders: map<string, seq<Card>>, cards: set<Card>)
  {
    forall x <- Ids(cards) :: x in orders && SetOf(orders[x]) == cards && DistinctCards(orders[x])
  }

  /**
   * The outcome for the whole cluster, each node reading the cards in an order of its own, whatever dead
   * nodes the topologies name: nobody leaves exactly when no split is recorded, and all leave exactly when
   * the smallest split is alone of its size and holds them all.
   */
  lemma ClusterOutcome(cards: set<Card>, orders: map<string, seq<Card>>)
    requires cards != {} && DistinctIds(cards) && Determined(cards) && Orders(orders, cards)
    ensures Splits(cards) != {} ==> Elected(cards, Leaving(cards, orders))
    ensures Leaving(cards, orders) == {} <==> Splits(cards) == {}
    ensures Leaving(cards, orders) == Ids(cards) <==> SoleSplitHoldsAll(cards)
  {
    LeavingIsElected(cards, orders);
    OutcomeOf(cards, Leaving(cards, orders));
  }

  lemma LeavingIsElected(cards: set<Card>, orders: map<string, seq<Card>>)
    requires cards != {} && Determined(cards) && Orders(orders, cards)
    ensures if Splits(cards) == {} then Leaving(cards, orders) == {} else Elected(cards, Leaving(cards, orders))
  {
    var c :| c in cards;
    assert c.id in Ids(cards);
    var candidates := Consensus(cards, orders, c.id);
    LeavingAre(cards, orders, candidates);
  }

  lemma LeavingAre(cards: set<Card>, orders: map<string, seq<Card>>, candidates: set<string>)
    requires Orders(orders, cards) && candidates <= Ids(cards)
    requires forall x <- Ids(cards) :: Leaves(orders[x], x) <==> x in candidates
    ensures Leaving(cards, orders) == candidates
  {
  }

  ghost predicate SoleSplitHoldsAll(cards: set<Card>)
  {
    Splits(cards) != {} && exists s :: Eligible(Splits(cards), Ids(cards)) == {s} && Ids(cards) <= Members(s)
  }

  lemma OutcomeOf(cards: set<Card>, candidates: set<string>)
    requires cards != {} && DistinctIds(cards)
    requires if Splits(cards) == {} then candidates == {} else Elected(cards, candidates)
    ensures candidates == {} <==> Splits(cards) == {}
    ensures candidates == Ids(cards) <==> SoleSplitHoldsAll(cards)
  {
    if Splits(cards) != {} {
      ElectedAreAlive(cards, candidates);
      SurvivalCondition(cards, candidates);
    } else {
      var c :| c in cards;
      assert c.id in Ids(cards);
    }
  }

  /** Without dead nodes: nobody leaves while everybody sees everybody, otherwise some leave and some stay. */
  lemma SplitIsResolved(cards: set<Card>, orders: map<string, seq<Card>>)
    requires cards != {} && DistinctIds(cards) && Healthy(cards) && Determined(cards) && Orders(orders, cards)
    ensures if forall c <- cards :: SeesAll(c, cards) then Leaving(cards, orders) == {}
            else {} < Leaving(cards, orders) < Ids(cards)
  {
    ClusterOutcome(cards, orders);
    HealthySplits(cards);
    if Splits(cards) != {} {
      HealthySurvival(cards, Leaving(cards, orders));
    }
  }

  /** The nodes that shut down when each node `x` reads the cards in the order `orders[x]`. */
  ghost function Leaving(cards: set<Card>, orders: map<string, seq<Card>>): set<string>
    requires Orders(orders, cards)
  {
    set x | x in Ids(cards) && Leaves(orders[x], x)
  }

  /** What a node concludes is what all conclude. */
  lemma Consensus(cards: set<Card>, orders: map<string, seq<Card>>, id: string) returns (candidates: set<string>)
    requires Determined(cards) && Orders(orders, cards) && id in Ids(cards)
    ensures if Splits(cards) == {} then candidates == {} else Elected(cards, candidates)
    ensures candidates <= Ids(cards) && forall x <- Ids(cards) :: Leaves(orders[x], x) <==> x in candidates
  {
    ElectIsElected(orders[id]);
    candidates := if Elect(orders[id]).Some? then SetOf(Elect(orders[id]).value) else {};
    if Splits(cards) != {} {
      ElectedAreAlive(cards, candidates);
    }
    forall x | x in Ids(cards) ensures Leaves(orders[x], x) <==> x in candidates {
      LeavesAlike(cards, orders[id], orders[x], x);
    }
  }

  lemma LeavesAlike(cards: set<Card>, a: seq<Card>, b: seq<Card>, x: string)
    requires Determined(cards) && IsOrder(a, cards) && IsOrder(b, cards)
    ensures Leaves(b, x) <==> Leaves(a, x)
  {
    NodesConcludeAlike(cards, a, b);
    if Elect(a).Some? {
      assert x in SetOf(Elect(a).value) <==> x in SetOf(Elect(b).value);
    }
  }

  method EnforceClusterConsistency(remoteCards: seq<Card>, ownCard: Card) returns (shutdown: bool)
    ensures shutdown <==> Leaves(remoteCards + [ownCard], ownCard.id)
  {
    var idCards := remoteCards + [ownCard];
    var splits := RecordSplits(idCards);
    if |splits| == 0 {
      return false;
    }
    AliveSplits(idCards);
    var alive := SortBySize(AliveAll(splits, CardIds(idCards)));
    var eligible := OfSize(alive, |alive[0]|);
    assert alive[0] in eligible;
    var candidates;
    if |eligible| == 1 {
      candidates := eligible[0];
    } else {
      var nodes := Uniq(Flatten(eligible));
      assert alive[0][0] in nodes;
      var isolated := Intersection(Xor(alive), nodes);
      var youngest := FindYoungest(if isolated != [] then isolated else nodes, idCards);
      if isolated != [] {
        candidates := Restrict(eligible, youngest.id, isolated);
      } else {
        candidates := [youngest.id];
      }
    }
    return ownCard.id in candidates;
  }

  method RecordSplits(idCards: seq<Card>) returns (splits: seq<seq<string>>)
    ensures splits == Record(idCards, |idCards|)
  {
    splits := [];
    for i := 0 to |idCards|
      invariant splits == Record(idCards[..i], |idCards|)
    {
      RecordNext(idCards, i, |idCards|);
      var topology := idCards[i].topology + [idCards[i].id];
      if |topology| != |idCards| {
        topology := Sort(topology);
        var found := Known(splits, topology);
        if !found {
          splits := splits + [topology];
        }
      }
    }
    assert idCards[..|idCards|] == idCards;
  }

  lemma RecordNext(cards: seq<Card>, i: nat, count: nat)
    requires i < |cards|
    ensures var before := Record(cards[..i], count);
            Record(cards[..i + 1], count) ==
            if |Seen(cards[i])| != count && Seen(cards[i]) !in before then before + [Seen(cards[i])] else before
  {
    assert cards[..i + 1][..i] == cards[..i];
  }

  method Known(splits: seq<seq<string>>, topology: seq<string>) returns (found: bool)
    ensures found <==> topology in splits
  {
    found := false;
    var j := 0;
    while j < |splits| && !found
      invariant 0 <= j <= |splits|
      invariant found <==> topology in splits[..j]
    {
      found := splits[j] == topology;
      j := j + 1;
    }
  }

  method FindYoungest(ids: seq<string>, idCards: seq<Card>) returns (youngest: Card)
    requires ids != [] && forall x :: x in ids ==> x in CardIds(idCards)
    ensures youngest == YoungestOf(ids, idCards)
  {
    youngest := Find(idCards, ids[0]);
    for i := 1 to |ids|
      invariant youngest == YoungestOf(ids[..i], idCards)
    {
      var idCard := Find(idCards, ids[i]);
      assert ids[..i + 1][..i] == ids[..i];
      if idCard.birthdate > youngest.birthdate {
        youngest := idCard;
      }
    }
    assert ids[..|ids|] == ids;
  }

  /** The part of the first split holding `id` that is isolated. */
  method Restrict(eligible: seq<seq<string>>, id: string, isolated: seq<string>) returns (candidates: seq<string>)
    requires id in Flatten(eligible)
    ensures candidates == Intersection(FirstWith(eligible, id), isolated)
  {
    var i := 0;
    while id !in eligible[i]
      invariant 0 <= i < |eligible| && id in Flatten(eligible[i..])
      invariant FirstWith(eligible, id) == FirstWith(eligible[i..], id)
      decreases |eligible| - i
    {
      assert eligible[i..][1..] == eligible[i + 1..];
      i := i + 1;
    }
    candidates := Intersection(eligible[i], isolated);
  }

  /* ---------- where the goal is missed ---------- */

  /** Two nodes born together that do not see each other designate each other: nobody leaves. */
  lemma TwinsStay(a: Card, b: Card)
    requires a.topology == b.topology == [] && a.id != b.id && a.birthdate == b.birthdate
    ensures !Leaves([b, a], a.id) && !Leaves([a, b], b.id)
  {
    OtherStays(a, b);
    OtherStays(b, a);
  }

  lemma OtherStays(a: Card, b: Card)
    requires a.topology == b.topology == [] && a.id != b.id && a.birthdate == b.birthdate
    ensures !Leaves([a, b], b.id)
  {
    var order := [a, b];
    ElectTwo(a, b);
    assert b.id !in [a.id];
    NotElected(order, [a.id], b.id);
  }

  lemma NotElected(order: seq<Card>, verdict: seq<string>, id: string)
    requires Elect(order) == Some(verdict) && id !in verdict
    ensures !Leaves(order, id)
  {
  }

  lemma ElectTwo(a: Card, b: Card)
    requires a.topology == b.topology == [] && a.id != b.id && a.birthdate == b.birthdate
    ensures Elect([a, b]) == Some([a.id])
  {
    var cards := [a, b];
    RecordTwo(a, b);
    AliveSplits(cards);
    AliveTwo(a.id, b.id, CardIds(cards));
    CandidatesOfTwo(a, b);
  }

  lemma AllIsolated(alive: seq<seq<string>>, cards: seq<Card>, nodes: seq<string>, y: Card)
    requires Candidacy(alive, cards) && OfSize(alive, |alive[0]|) == alive && |alive| != 1
    requires Uniq(Flatten(alive)) == nodes && Intersection(Xor(alive), nodes) == nodes && nodes != []
    requires (forall x <- nodes :: x in CardIds(cards)) && YoungestOf(nodes, cards) == y
    requires y.id in Flatten(alive)
    ensures Candidates(alive, cards) == Intersection(FirstWith(alive, y.id), nodes)
  {
  }

  lemma CandidatesOfTwo(a: Card, b: Card)
    requires a.id != b.id && a.birthdate == b.birthdate && Candidacy([[a.id], [b.id]], [a, b])
    ensures Candidates([[a.id], [b.id]], [a, b]) == [a.id]
  {
    var alive, cards, nodes := [[a.id], [b.id]], [a, b], [a.id, b.id];
    assert OfSize(alive, |alive[0]|) == alive by {
      AliveTwo(a.id, b.id, {a.id, b.id});
    }
    XorTwo(a.id, b.id);
    assert Uniq(Flatten(alive)) == nodes;
    assert Intersection(Xor(alive), nodes) == nodes by {
      InBothOfTwo(a.id, b.id);
    }
    assert YoungestOf(nodes, cards) == a by {
      YoungestOfTwo(a, b);
    }
    assert Candidates(alive, cards) == Intersection(FirstWith(alive, a.id), nodes) by {
      AllIsolated(alive, cards, nodes, a);
    }
    assert FirstWith(alive, a.id) == [a.id];
    assert Intersection([a.id], nodes) == [a.id] by {
      InBothOfTwo(a.id, b.id);
    }
  }

  lemma YoungestOfTwo(a: Card, b: Card)
    requires a.id != b.id && a.birthdate == b.birthdate
    ensures YoungestOf([a.id, b.id], [a, b]) == a
  {
    assert [a.id, b.id][..1] == [a.id];
    assert YoungestOf([a.id], [a, b]) == a;
  }

  lemma RecordTwo(a: Card, b: Card)
    requires a.topology == b.topology == [] && a.id != b.id
    ensures Record([a, b], 2) == [[a.id], [b.id]]
  {
    assert [a, b][..1] == [a] && [a][..0] == [];
    assert Seen(a) == [a.id] && Seen(b) == [b.id] && [a.id][0] != [b.id][0];
    assert Record([a], 2) == [[a.id]];
  }

  lemma AliveTwo(a: string, b: string, ids: set<string>)
    requires a in ids && b in ids
    ensures var s := [[a], [b]]; AliveAll(s, ids) == s && SortBySize(s) == s && OfSize(s, 1) == s
  {
    var s, second: seq<seq<string>> := [[a], [b]], [[b]];
    assert s[1..] == second && second[1..] == [];
    AliveOne(a, ids);
    AliveOne(b, ids);
    SortTwo(s, second);
  }

  lemma SortTwo(s: seq<seq<string>>, second: seq<seq<string>>)
    requires |s| == 2 && |s[0]| == 1 == |s[1]| && s[1..] == second && second[1..] == []
    ensures SortBySize(s) == s && OfSize(s, 1) == s
  {
    assert SortBySize(second) == InsertBySize(second[0], []) == second;
    assert OfSize(second, 1) == second;
  }

  lemma AliveOne(a: string, ids: set<string>)
    requires a in ids
    ensures Alive([a], ids) == [a]
  {
    assert [a][1..] == [];
  }

  lemma XorTwo(a: string, b: string)
    requires a != b
    ensures Uniq(Flatten([[a], [b]])) == [a, b] && Xor([[a], [b]]) == [a, b] && a in Flatten([[a], [b]])
  {
    var lists: seq<seq<string>> := [[a], [b]];
    var second: seq<seq<string>> := [[b]];
    assert lists[1..] == second && second[1..] == [];
    assert Flatten(second) == [b];
    assert Holders(second, a) == 0 && Holders(second, b) == 1;
    assert [a, b][1..] == [b] && [a, b][..1] == [a];
    assert HeldOnce([b], lists) == [b];
    assert HeldOnce([a, b], lists) == [a, b];
    assert Uniq([a]) == [a];
  }

  lemma InBothOfTwo(a: string, b: string)
    requires a != b
    ensures Intersection([a, b], [a, b]) == [a, b] && Intersection([a], [a, b]) == [a]
  {
    var both := [a, b];
    assert both[1..] == [b] && both[..1] == [a];
    assert InBoth([b], both) == [b] && InBoth(both, both) == both && InBoth([a], both) == [a];
    assert Uniq([a]) == [a];
  }

  /** A topology that still names a dead node can hide that its owner does not see a live one. */
  lemma DeadNodeHidesSplit()
    ensures var a, b := Card("a", 0, ["x"]), Card("b", 1, ["a"]);
            Elect([a, b]) == None && !SeesAll(a, {a, b})
  {
    var a, b := Card("a", 0, ["x"]), Card("b", 1, ["a"]);
    assert [a, b][..1] == [a] && [a][..0] == [];
    assert b.id in Ids({a, b});
    assert Record([a], 2) == [];
  }

  /** Dead nodes in the topology of the only node left make it shut down. */
  lemma DeadNodesKillTheLastOne()
    ensures Leaves([Card("a", 0, ["x", "y"])], "a")
  {
    var a := Card("a", 0, ["x", "y"]);
    assert [a][..0] == [];
    var s := Seen(a);
    SeesItself(a);
    assert Record([a], 1) == [s];
    var t := Alive(s, CardIds([a]));
    var raw: seq<seq<string>> := [s];
    assert raw[1..] == [];
    assert AliveAll([s], CardIds([a])) == [t];
    var alive: seq<seq<string>> := [t];
    assert alive[1..] == [];
    assert SortBySize([t]) == [t] && OfSize([t], |t|) == [t];
  }

  lemma SeenMembers(c: Card, x: string)
    ensures x in Seen(c) <==> x in c.topology || x == c.id
  {
    assert x in Seen(c) <==> x in multiset(Seen(c));
    assert x in c.topology + [c.id] <==> x in multiset(c.topology + [c.id]);
  }

  /** Three nodes that each see the next one only: the case without isolated nodes does happen. */
  lemma RingHasNoIsolatedNode(a: Card, b: Card, c: Card)
    requires a.topology == [b.id] && b.topology == [c.id] && c.topology == [a.id]
    requires a.id != b.id && b.id != c.id && c.id != a.id
    ensures Splits({a, b, c}) != {} && IsolatedNodes(Splits({a, b, c}), Ids({a, b, c})) == {}
  {
    var cards := {a, b, c};
    PairIsSplit(cards, a);
    PairIsSplit(cards, b);
    PairIsSplit(cards, c);
    NoneIsolated(cards, Splits(cards), a, b, c);
  }

  lemma PairIsSplit(cards: set<Card>, a: Card)
    requires a in cards && |a.topology| == 1 && |cards| == 3
    ensures Seen(a) in Splits(cards)
  {
    assert |Seen(a)| == 2;
  }

  lemma NoneIsolated(cards: set<Card>, splits: set<seq<string>>, a: Card, b: Card, c: Card)
    requires cards == {a, b, c} && Seen(a) in splits && Seen(b) in splits && Seen(c) in splits
    requires a.topology == [b.id] && b.topology == [c.id] && c.topology == [a.id]
    requires a.id != b.id && b.id != c.id && c.id != a.id
    ensures IsolatedNodes(splits, Ids(cards)) == {}
  {
    SharedByNeighbours(splits, a, b);
    SharedByNeighbours(splits, b, c);
    SharedByNeighbours(splits, c, a);
    assert Ids(cards) == {a.id, b.id, c.id};
  }

  /** A node is in the split of the node that sees it and in its own. */
  lemma SharedByNeighbours(splits: set<seq<string>>, a: Card, b: Card)
    requires Seen(a) in splits && Seen(b) in splits
    requires a.topology == [b.id] && a.id != b.id && b.topology != [a.id] && |b.topology| == 1
    ensures |SplitsWith(splits, b.id)| != 1
  {
    SeenMembers(a, b.id);
    SeenMembers(b, b.id);
    SeenMembers(a, a.id);
    SeenMembers(b, a.id);
    if |SplitsWith(splits, b.id)| == 1 {
      Sole(SplitsWith(splits, b.id), Seen(a), Seen(b));
    }
  }
}
