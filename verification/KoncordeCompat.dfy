/**
 * The Koncorde v4 index codec (lib/util/koncordeCompat.ts): an index name and a
 * collection name are packed in one string around a "/".
 */
module KoncordeCompat {
  import opened Wrappers
  import Text

  const SEPARATOR := '/'
  const DEFAULT_INDEX := "(default)"

  /** The pair built by destructuring a split: the collection is missing when there is no separator. */
  datatype IndexPair = IndexPair(index: string, collection: Option<string>)

  function ToKoncordeIndex(index: string, collection: string): string
  {
    index + [SEPARATOR] + collection
  }

  function FromKoncordeIndex(kindex: string): IndexPair
  {
    var parts := Text.Split(kindex, SEPARATOR);
    IndexPair(parts[0], if |parts| > 1 then Some(parts[1]) else None)
  }

  /** Decoding undoes encoding exactly for the names that hold no separator. */
  lemma CodecRoundTrip(index: string, collection: string)
    ensures FromKoncordeIndex(ToKoncordeIndex(index, collection)) == IndexPair(index, Some(collection))
            <==> SEPARATOR !in index && SEPARATOR !in collection
  {
    Text.SplitAtSeparator(index, collection, SEPARATOR);
    Text.FirstPart(index, SEPARATOR);
    Text.FirstPart(collection, SEPARATOR);
  }

  /** Two pairs share a Koncorde index only when they are the same pair, if index names hold no separator. */
  lemma CodecInjective(i1: string, c1: string, i2: string, c2: string)
    requires SEPARATOR !in i1 && SEPARATOR !in i2
    ensures ToKoncordeIndex(i1, c1) == ToKoncordeIndex(i2, c2) <==> i1 == i2 && c1 == c2
  {
    Text.SplitAtSeparator(i1, c1, SEPARATOR);
    Text.SplitAtSeparator(i2, c2, SEPARATOR);
    Text.FirstPart(i1, SEPARATOR);
    Text.FirstPart(i2, SEPARATOR);
    if ToKoncordeIndex(i1, c1) == ToKoncordeIndex(i2, c2) {
      assert i1 == Text.Split(ToKoncordeIndex(i1, c1), SEPARATOR)[0];
      assert i2 == Text.Split(ToKoncordeIndex(i2, c2), SEPARATOR)[0];
      assert ToKoncordeIndex(i1, c1)[|i1| + 1..] == c1;
      assert ToKoncordeIndex(i2, c2)[|i2| + 1..] == c2;
    }
  }

  /** A separator in an index name makes two different pairs collide. */
  lemma CodecCollision()
    ensures ToKoncordeIndex("a/b", "c") == ToKoncordeIndex("a", "b/c")
  {
  }

  function GetCollections(kindexes: seq<string>, index: string): seq<string>
  {
    if kindexes == [] then []
    else
      var prefix := index + [SEPARATOR];
      (if prefix <= kindexes[0] then [kindexes[0][|prefix|..]] else []) + GetCollections(kindexes[1..], index)
  }

  /** A collection is listed for an index exactly when their encoded pair is a Koncorde index. */
  lemma {:induction false} CollectionsAreThoseOfTheIndex(kindexes: seq<string>, index: string, collection: string)
    ensures collection in GetCollections(kindexes, index) <==> ToKoncordeIndex(index, collection) in kindexes
  {
    if kindexes != [] {
      CollectionsAreThoseOfTheIndex(kindexes[1..], index, collection);
      var prefix := index + [SEPARATOR];
      var k := kindexes[0];
      assert kindexes == [k] + kindexes[1..];
      if prefix <= k {
        assert k == prefix + k[|prefix|..];
        assert ToKoncordeIndex(index, collection) == prefix + collection;
        assert (prefix + collection)[|prefix|..] == collection;
      } else {
        assert ToKoncordeIndex(index, collection) != k by {
          assert prefix <= prefix + collection;
        }
      }
    }
  }

  /** `substr(0, indexOf("/"))`: a name without separator gives a negative length, hence the empty string. */
  function IndexName(kindex: string): string
  {
    var i := Text.IndexOf(kindex, SEPARATOR);
    if i < 0 then "" else kindex[..i]
  }

  function GetIndexesFrom(kindexes: seq<string>, seen: set<string>): seq<string>
  {
    if kindexes == [] then []
    else if kindexes[0] == DEFAULT_INDEX || IndexName(kindexes[0]) in seen then GetIndexesFrom(kindexes[1..], seen)
    else [IndexName(kindexes[0])] + GetIndexesFrom(kindexes[1..], seen + {IndexName(kindexes[0])})
  }

  function GetIndexes(kindexes: seq<string>): seq<string>
  {
    GetIndexesFrom(kindexes, {})
  }

  ghost predicate Distinct<T(!new)>(s: seq<T>)
  {
    forall i, j | 0 <= i < j < |s| :: s[i] != s[j]
  }

  lemma {:induction false} IndexesFromAreDistinct(kindexes: seq<string>, seen: set<string>)
    ensures Distinct(GetIndexesFrom(kindexes, seen))
    ensures forall i | i in GetIndexesFrom(kindexes, seen) :: i !in seen
    ensures forall k | k in kindexes && k != DEFAULT_INDEX ::
              IndexName(k) in seen || IndexName(k) in GetIndexesFrom(kindexes, seen)
    ensures forall i | i in GetIndexesFrom(kindexes, seen) ::
              exists k :: k in kindexes && k != DEFAULT_INDEX && IndexName(k) == i
  {
    if kindexes != [] {
      var name := IndexName(kindexes[0]);
      var skip := kindexes[0] == DEFAULT_INDEX || name in seen;
      var seen' := if skip then seen else seen + {name};
      IndexesFromAreDistinct(kindexes[1..], seen');
      var rest := GetIndexesFrom(kindexes[1..], seen');
      var all := GetIndexesFrom(kindexes, seen);
      assert all == (if skip then rest else [name] + rest);
      forall k | k in kindexes && k != DEFAULT_INDEX
        ensures IndexName(k) in seen || IndexName(k) in all
      {
        if k == kindexes[0] {
        } else {
          assert k in kindexes[1..];
        }
      }
      forall i | i in all
        ensures exists k :: k in kindexes && k != DEFAULT_INDEX && IndexName(k) == i
      {
        if !skip && i == name {
          assert kindexes[0] in kindexes;
        } else {
          var k :| k in kindexes[1..] && k != DEFAULT_INDEX && IndexName(k) == i;
          assert k in kindexes;
        }
      }
    }
  }

  lemma IndexNameOfEncoded(index: string, collection: string)
    requires SEPARATOR !in index
    ensures IndexName(ToKoncordeIndex(index, collection)) == index
    ensures ToKoncordeIndex(index, collection) != DEFAULT_INDEX
  {
    var k := ToKoncordeIndex(index, collection);
    Text.IndexOfSeparator(index, collection, SEPARATOR);
    assert k[..|index|] == index;
    assert k[|index|] == SEPARATOR;
    assert SEPARATOR !in DEFAULT_INDEX;
  }

  /**
   * For the Koncorde indexes of a set of pairs, the listed index names are exactly the index
   * names of the pairs, each once.
   */
  lemma IndexesAreThoseOfThePairs(kindexes: seq<string>, pairs: set<(string, string)>)
    requires forall p | p in pairs :: SEPARATOR !in p.0
    requires forall k | k in kindexes ::
               k == DEFAULT_INDEX || exists p :: p in pairs && k == ToKoncordeIndex(p.0, p.1)
    requires forall p | p in pairs :: ToKoncordeIndex(p.0, p.1) in kindexes
    ensures Distinct(GetIndexes(kindexes))
    ensures forall index :: index in GetIndexes(kindexes) <==> exists p :: p in pairs && p.0 == index
  {
    IndexesFromAreDistinct(kindexes, {});
    forall index
      ensures index in GetIndexes(kindexes) <==> exists p :: p in pairs && p.0 == index
    {
      if index in GetIndexes(kindexes) {
        var k :| k in kindexes && k != DEFAULT_INDEX && IndexName(k) == index;
        var p :| p in pairs && k == ToKoncordeIndex(p.0, p.1);
        IndexNameOfEncoded(p.0, p.1);
      }
      if exists p :: p in pairs && p.0 == index {
        var p :| p in pairs && p.0 == index;
        IndexNameOfEncoded(p.0, p.1);
      }
    }
  }
}
