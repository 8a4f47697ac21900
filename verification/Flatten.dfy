/**
 * The two flatteners of nested objects (lib/util/dump-collection.ts:29-56, lib/util/extractFields.js:40-63).
 */
module Flatten {
  import opened Wrappers
  import opened Text

  /** Everything that is not a plain object is a leaf; fields are in the order in which they are enumerated. */
  datatype Json = Leaf(text: string) | Object(fields: seq<Field>)

  datatype Field = Field(key: string, value: Json)

  datatype Pair = Pair(key: string, value: Json)

  /** An empty path counts as no path. */
  function Under(path: string, key: string): string
  {
    if path == "" then key else path + "." + key
  }

  /* ---------- the two functions ---------- */

  /** An ignored key is found by its value, so the empty key cannot be ignored. */
  predicate Ignored(key: string, fieldsToIgnore: seq<string>)
  {
    key in fieldsToIgnore && key != ""
  }

  /** The pairs that `extractFields` collects. */
  function Pairs(fields: seq<Field>, fieldsToIgnore: seq<string>, path: string): seq<Pair>
    decreases fields
  {
    if fields == [] then []
    else
      var f := fields[0];
      (if Ignored(f.key, fieldsToIgnore) then []
       else if f.value.Object? then Pairs(f.value.fields, fieldsToIgnore, Under(path, f.key))
       else [Pair(Under(path, f.key), f.value)])
      + Pairs(fields[1..], fieldsToIgnore, path)
  }

  /** The object that `flattenStep` builds on. */
  function Flat(output: map<string, Json>, fields: seq<Field>, prev: string): map<string, Json>
    decreases fields
  {
    if fields == [] then output
    else
      var f := fields[0];
      Flat(if f.value.Object? then Flat(output, f.value.fields, Under(prev, f.key))
           else output[Under(prev, f.key) := f.value],
           fields[1..], prev)
  }

  /** The map of a list of pairs: the last one wins. */
  function Assign(output: map<string, Json>, pairs: seq<Pair>): map<string, Json>
  {
    if pairs == [] then output
    else Assign(output, pairs[..|pairs| - 1])[pairs[|pairs| - 1].key := pairs[|pairs| - 1].value]
  }

  lemma {:induction false} AssignConcat(output: map<string, Json>, a: seq<Pair>, b: seq<Pair>)
    ensures Assign(output, a + b) == Assign(Assign(output, a), b)
  {
    if b == [] {
      assert a + b == a;
    } else {
      AssignConcat(output, a, b[..|b| - 1]);
      assert (a + b)[..|a + b| - 1] == a + b[..|b| - 1];
    }
  }

  /** Flattening an object is collecting its pairs and letting the last one win: the two functions agree. */
  lemma {:induction false} FlattenersAgree(output: map<string, Json>, fields: seq<Field>, path: string)
    ensures Flat(output, fields, path) == Assign(output, Pairs(fields, [], path))
    decreases fields
  {
    if fields != [] {
      var f := fields[0];
      var first := if f.value.Object? then Pairs(f.value.fields, [], Under(path, f.key))
                   else [Pair(Under(path, f.key), f.value)];
      var next := Assign(output, first);
      if f.value.Object? {
        FlattenersAgree(output, f.value.fields, Under(path, f.key));
      } else {
        assert first[..0] == [];
      }
      FlattenersAgree(next, fields[1..], path);
      AssignConcat(output, first, Pairs(fields[1..], [], path));
    }
  }

  /* ---------- leaves of the tree ---------- */

  /** A leaf and the keys that lead to it. */
  datatype Branch = Branch(keys: seq<string>, value: Json)

  function Branches(fields: seq<Field>): seq<Branch>
    decreases fields
  {
    if fields == [] then []
    else
      var f := fields[0];
      (if f.value.Object? then Prefixed(f.key, Branches(f.value.fields))
       else [Branch([f.key], f.value)]) + Branches(fields[1..])
  }

  function Prefixed(key: string, branches: seq<Branch>): (r: seq<Branch>)
    ensures |r| == |branches|
    ensures forall i :: 0 <= i < |r| ==> r[i] == Branch([key] + branches[i].keys, branches[i].value)
  {
    if branches == [] then [] else [Branch([key] + branches[0].keys, branches[0].value)] + Prefixed(key, branches[1..])
  }

  function PathOf(path: string, keys: seq<string>): string
    decreases keys
  {
    if keys == [] then path else PathOf(Under(path, keys[0]), keys[1..])
  }

  /** No key on the way to the leaf is one of those to ignore; the empty key cannot be ignored. */
  predicate Kept(b: Branch, fieldsToIgnore: seq<string>)
  {
    forall k <- b.keys :: k == "" || k !in fieldsToIgnore
  }

  /** The branches that are kept, in order, named by their paths. */
  function Named(branches: seq<Branch>, fieldsToIgnore: seq<string>, path: string): seq<Pair>
  {
    if branches == [] then []
    else
      (if Kept(branches[0], fieldsToIgnore) then [Pair(PathOf(path, branches[0].keys), branches[0].value)] else [])
      + Named(branches[1..], fieldsToIgnore, path)
  }

  lemma {:induction false} NamedConcat(a: seq<Branch>, b: seq<Branch>, fieldsToIgnore: seq<string>, path: string)
    ensures Named(a + b, fieldsToIgnore, path) == Named(a, fieldsToIgnore, path) + Named(b, fieldsToIgnore, path)
  {
    if a == [] {
      assert a + b == b;
    } else {
      NamedConcat(a[1..], b, fieldsToIgnore, path);
      assert (a + b)[0] == a[0] && (a + b)[1..] == a[1..] + b;
      Regroup(if Kept(a[0], fieldsToIgnore) then [Pair(PathOf(path, a[0].keys), a[0].value)] else [],
              Named(a[1..], fieldsToIgnore, path), Named(b, fieldsToIgnore, path));
    }
  }

  lemma {:induction false} NamedPrefixed(key: string, branches: seq<Branch>, fieldsToIgnore: seq<string>, path: string)
    ensures Named(Prefixed(key, branches), fieldsToIgnore, path) ==
            if key != "" && key in fieldsToIgnore then [] else Named(branches, fieldsToIgnore, Under(path, key))
  {
    if branches != [] {
      NamedPrefixed(key, branches[1..], fieldsToIgnore, path);
      var keys := branches[0].keys;
      var longer := [key] + keys;
      assert longer[1..] == keys && longer[0] in longer;
      assert forall k :: k in longer <==> k == key || k in keys;
    }
  }

  /** What is collected: each leaf with none of the keys to ignore on its way, in order, under its dotted path. */
  lemma {:induction false} PairsAreBranches(fields: seq<Field>, fieldsToIgnore: seq<string>, path: string)
    ensures Pairs(fields, fieldsToIgnore, path) == Named(Branches(fields), fieldsToIgnore, path)
    decreases fields
  {
    if fields != [] {
      var f := fields[0];
      PairsAreBranches(fields[1..], fieldsToIgnore, path);
      if f.value.Object? {
        PairsAreBranches(f.value.fields, fieldsToIgnore, Under(path, f.key));
        NamedPrefixed(f.key, Branches(f.value.fields), fieldsToIgnore, path);
        NamedConcat(Prefixed(f.key, Branches(f.value.fields)), Branches(fields[1..]), fieldsToIgnore, path);
      } else {
        var one := [Branch([f.key], f.value)];
        NamedConcat(one, Branches(fields[1..]), fieldsToIgnore, path);
        assert [f.key][1..] == [] && f.key in [f.key] && one[1..] == [];
        assert PathOf(path, [f.key]) == Under(path, f.key);
        assert Named(one, fieldsToIgnore, path) == if Ignored(f.key, fieldsToIgnore) then []
                                                   else [Pair(Under(path, f.key), f.value)];
      }
    }
  }

  lemma {:induction false} NamedAre(branches: seq<Branch>, fieldsToIgnore: seq<string>, path: string, p: Pair)
    ensures p in Named(branches, fieldsToIgnore, path) <==>
            exists b <- branches :: Kept(b, fieldsToIgnore) && p == Pair(PathOf(path, b.keys), b.value)
  {
    if branches != [] {
      NamedAre(branches[1..], fieldsToIgnore, path, p);
      assert branches == [branches[0]] + branches[1..];
      assert branches[0] in branches;
    }
  }

  /** A pair is collected exactly on account of some leaf with none of the keys to ignore on its way. */
  lemma PairsOfKept(fields: seq<Field>, fieldsToIgnore: seq<string>, p: Pair)
    ensures p in Pairs(fields, fieldsToIgnore, "") <==>
            exists b <- Branches(fields) :: Kept(b, fieldsToIgnore) && p == Pair(PathOf("", b.keys), b.value)
  {
    PairsAreBranches(fields, fieldsToIgnore, "");
    NamedAre(Branches(fields), fieldsToIgnore, "", p);
  }

  /* ---------- looking a path up ---------- */

  /** As in any object, keys are distinct. */
  predicate DistinctKeys(fields: seq<Field>)
    decreases fields
  {
    fields == [] ||
      (var f := fields[0];
       && (forall g <- fields[1..] :: g.key != f.key)
       && (f.value.Object? ==> DistinctKeys(f.value.fields))
       && DistinctKeys(fields[1..]))
  }

  /** The leaf reached by following the keys. */
  function Find(fields: seq<Field>, keys: seq<string>): Option<Json>
    decreases fields
  {
    if fields == [] || keys == [] then None
    else
      var f := fields[0];
      if f.key != keys[0] then Find(fields[1..], keys)
      else if f.value.Leaf? then if |keys| == 1 then Some(f.value) else None
      else Find(f.value.fields, keys[1..])
  }

  lemma {:induction false} FindMisses(fields: seq<Field>, keys: seq<string>)
    requires keys != [] && forall g <- fields :: g.key != keys[0]
    ensures Find(fields, keys) == None
    ensures forall b <- Branches(fields) :: b.keys != keys
  {
    if fields != [] {
      assert forall g <- fields[1..] :: g in fields;
      assert fields[0] in fields;
      FindMisses(fields[1..], keys);
      forall b | b in Branches(fields) ensures b.keys != keys {
        if b !in Branches(fields[1..]) {
          assert b.keys[0] == fields[0].key;
        }
      }
    }
  }

  lemma {:induction false} BranchesAreFound(fields: seq<Field>, keys: seq<string>, value: Json)
    requires DistinctKeys(fields)
    ensures Branch(keys, value) in Branches(fields) <==> Find(fields, keys) == Some(value)
    decreases fields
  {
    if fields != [] {
      var f := fields[0];
      BranchesAreFound(fields[1..], keys, value);
      var first := if f.value.Object? then Prefixed(f.key, Branches(f.value.fields)) else [Branch([f.key], f.value)];
      assert Branch(keys, value) in Branches(fields)
        <==> Branch(keys, value) in first || Branch(keys, value) in Branches(fields[1..]);
      if keys == [] {
        assert forall b <- first :: b.keys != [];
      } else if f.key != keys[0] {
        assert forall b <- first :: b.keys[0] == f.key;
      } else {
        FindMisses(fields[1..], keys);
        if f.value.Object? {
          BranchesAreFound(f.value.fields, keys[1..], value);
          PrefixedHolds(f.key, Branches(f.value.fields), keys, value);
        } else {
          assert keys == [f.key] <==> |keys| == 1;
        }
      }
    }
  }

  lemma PrefixedHolds(key: string, branches: seq<Branch>, keys: seq<string>, value: Json)
    requires keys != [] && keys[0] == key
    ensures Branch(keys, value) in Prefixed(key, branches) <==> Branch(keys[1..], value) in branches
  {
    assert keys == [key] + keys[1..];
    if Branch(keys[1..], value) in branches {
      var i :| 0 <= i < |branches| && branches[i] == Branch(keys[1..], value);
      assert Prefixed(key, branches)[i] == Branch(keys, value);
    }
    if Branch(keys, value) in Prefixed(key, branches) {
      var i :| 0 <= i < |branches| && Prefixed(key, branches)[i] == Branch(keys, value);
      assert ([key] + branches[i].keys)[1..] == branches[i].keys;
    }
  }

  predicate Dotless(keys: seq<string>)
  {
    keys != [] && forall k <- keys :: '.' !in k
  }

  /** Keys that their path gives back: no dot, and the first one is not empty unless it is the only one. */
  predicate Plain(keys: seq<string>)
  {
    Dotless(keys) && (|keys| == 1 || keys[0] != "")
  }

  lemma {:induction false} PathUnder(path: string, keys: seq<string>)
    requires path != "" && keys != []
    ensures PathOf(path, keys) == path + "." + Join(keys, ".")
    decreases keys
  {
    var tail := keys[1..];
    var next := Under(path, keys[0]);
    if tail == [] {
      assert PathOf(next, tail) == next;
    } else {
      PathUnder(next, tail);
      assert Join(keys, ".") == keys[0] + "." + Join(tail, ".");
      assert (path + "." + keys[0]) + "." + Join(tail, ".") == path + "." + (keys[0] + "." + Join(tail, "."));
    }
  }

  /** Plain keys are joined, and recovered from their path. */
  lemma PathOfPlain(keys: seq<string>)
    requires Plain(keys)
    ensures PathOf("", keys) == Join(keys, ".") && Split(PathOf("", keys), '.') == keys
  {
    var tail := keys[1..];
    if tail != [] {
      PathUnder(keys[0], tail);
    }
    SplitOfJoin(keys);
  }

  /** Empty keys at the start leave no trace: the path of dotless keys is that of some plain keys. */
  lemma {:induction false} PathOfDotless(keys: seq<string>) returns (plain: seq<string>)
    requires Dotless(keys)
    ensures Plain(plain) && PathOf("", plain) == PathOf("", keys)
    decreases keys
  {
    if Plain(keys) {
      plain := keys;
    } else {
      assert forall k <- keys[1..] :: k in keys;
      plain := PathOfDotless(keys[1..]);
    }
  }

  lemma {:induction false} SplitOfJoin(keys: seq<string>)
    requires Dotless(keys)
    ensures Split(Join(keys, "."), '.') == keys
  {
    assert keys[0] in keys;
    FirstPart(keys[0], '.');
    if |keys| > 1 {
      var tail := keys[1..];
      assert forall k <- tail :: k in keys;
      SplitOfJoin(tail);
      SplitAtSeparator(keys[0], Join(tail, "."), '.');
      assert keys == [keys[0]] + tail;
    }
  }

  /** The last of the branches that have the given path. */
  function LastOn(branches: seq<Branch>, path: string): (b: Option<Branch>)
    ensures b.Some? ==> b.value in branches && PathOf("", b.value.keys) == path
    ensures b.None? ==> forall d <- branches :: PathOf("", d.keys) != path
  {
    if branches == [] then None
    else
      var last := branches[|branches| - 1];
      assert branches == branches[..|branches| - 1] + [last];
      if PathOf("", last.keys) == path then Some(last) else LastOn(branches[..|branches| - 1], path)
  }

  lemma {:induction false} LastWins(branches: seq<Branch>, k: string)
    ensures var flat := Assign(map[], Named(branches, [], ""));
            var last := LastOn(branches, k);
            (k in flat <==> last.Some?) && (k in flat ==> flat[k] == last.value.value)
  {
    if branches != [] {
      var before, last := branches[..|branches| - 1], branches[|branches| - 1];
      LastWins(before, k);
      NamedConcat(before, [last], [], "");
      NamedOne(last);
      assert branches == before + [last];
      var pairs := Named(before, [], "") + [Pair(PathOf("", last.keys), last.value)];
      assert pairs[..|pairs| - 1] == Named(before, [], "");
    }
  }

  lemma NamedOne(b: Branch)
    ensures Named([b], [], "") == [Pair(PathOf("", b.keys), b.value)]
  {
    assert [b][1..] == [];
  }

  /** The value of the flat object at a path. */
  function FlatAt(fields: seq<Field>, k: string): Option<Json>
  {
    var flat := Flat(map[], fields, "");
    if k in flat then Some(flat[k]) else None
  }

  /** Looking a path up in the flat object is following its keys in the original. */
  ghost predicate FlatIsLookup(fields: seq<Field>)
  {
    forall k :: FlatAt(fields, k) == Find(fields, Split(k, '.'))
  }

  lemma FlatAtIsLast(fields: seq<Field>, k: string)
    ensures var last := LastOn(Branches(fields), k);
            FlatAt(fields, k) == if last.Some? then Some(last.value.value) else None
  {
    FlattenersAgree(map[], fields, "");
    PairsAreBranches(fields, [], "");
    LastWins(Branches(fields), k);
  }

  /**
   * Other leaves make up for one whose keys are not plain: the last value on its path is that of the
   * leaf the path leads to, and its own keys, if they can come from a path, lead to its value.
   */
  ghost predicate Overruled(b: Branch, branches: seq<Branch>)
  {
    var k := PathOf("", b.keys);
    && (exists d <- branches :: d.keys == Split(k, '.') && Some(d.value) == ValueOn(branches, k))
    && (Dotless(b.keys) ==> ValueOn(branches, Join(b.keys, ".")) == Some(b.value))
  }

  function ValueOn(branches: seq<Branch>, k: string): Option<Json>
  {
    var last := LastOn(branches, k);
    if last.Some? then Some(last.value.value) else None
  }

  /** For any object: lookups agree at every path exactly when each leaf has plain keys or is made up for. */
  lemma FlatIsLookupIff(fields: seq<Field>)
    requires DistinctKeys(fields)
    ensures FlatIsLookup(fields) <==> forall b <- Branches(fields) :: Plain(b.keys) || Overruled(b, Branches(fields))
  {
    if FlatIsLookup(fields) {
      forall b | b in Branches(fields) ensures Overruled(b, Branches(fields)) {
        LookupOverrules(fields, b);
      }
    }
    if forall b <- Branches(fields) :: Plain(b.keys) || Overruled(b, Branches(fields)) {
      forall k ensures FlatAt(fields, k) == Find(fields, Split(k, '.')) {
        LookupAt(fields, k);
      }
    }
  }

  lemma LookupOverrules(fields: seq<Field>, b: Branch)
    requires DistinctKeys(fields) && FlatIsLookup(fields) && b in Branches(fields)
    ensures Overruled(b, Branches(fields))
  {
    var branches := Branches(fields);
    var k := PathOf("", b.keys);
    FlatAtIsLast(fields, k);
    var v := LastOn(branches, k).value.value;
    BranchesAreFound(fields, Split(k, '.'), v);
    assert FlatAt(fields, k) == Find(fields, Split(k, '.')) == Some(v);
    assert Branch(Split(k, '.'), v) in branches;
    if Dotless(b.keys) {
      var own := Join(b.keys, ".");
      SplitOfJoin(b.keys);
      FlatAtIsLast(fields, own);
      BranchesAreFound(fields, b.keys, b.value);
      assert b == Branch(b.keys, b.value);
      assert FlatAt(fields, own) == Find(fields, Split(own, '.'));
    }
  }

  lemma LookupAt(fields: seq<Field>, k: string)
    requires DistinctKeys(fields) && forall b <- Branches(fields) :: Plain(b.keys) || Overruled(b, Branches(fields))
    ensures FlatAt(fields, k) == Find(fields, Split(k, '.'))
  {
    var branches := Branches(fields);
    var keys := Split(k, '.');
    FlatAtIsLast(fields, k);
    SplitThenJoin(k, '.');
    var last := LastOn(branches, k);
    if last.Some? {
      LastIsFound(fields, k, last.value);
    } else if Find(fields, keys).Some? {
      var b := Branch(keys, Find(fields, keys).value);
      BranchesAreFound(fields, keys, b.value);
      if Plain(keys) {
        PathOfPlain(keys);
      }
    }
  }

  lemma LastIsFound(fields: seq<Field>, k: string, b: Branch)
    requires DistinctKeys(fields) && LastOn(Branches(fields), k) == Some(b)
    requires Plain(b.keys) || Overruled(b, Branches(fields))
    ensures Find(fields, Split(k, '.')) == Some(b.value)
  {
    var keys := Split(k, '.');
    if Plain(b.keys) {
      PathOfPlain(b.keys);
      BranchesAreFound(fields, b.keys, b.value);
      assert b == Branch(b.keys, b.value);
    } else {
      var d :| d in Branches(fields) && d.keys == keys && Some(d.value) == ValueOn(Branches(fields), k);
      BranchesAreFound(fields, keys, d.value);
      assert d == Branch(keys, d.value);
    }
  }

  /**
   * Each leaf has plain keys, or some key with a dot and, on its path, another leaf that comes last and is the
   * one that the path leads to. This speaks of keys and of the order of the leaves alone.
   */
  predicate Ordered(branches: seq<Branch>)
  {
    forall b <- branches :: Plain(b.keys) || (!Dotless(b.keys) && LastIsNested(branches, PathOf("", b.keys)))
  }

  /** The last leaf on the path is the one whose keys are the parts of the path. */
  predicate LastIsNested(branches: seq<Branch>, k: string)
  {
    var last := LastOn(branches, k);
    last.Some? && last.value.keys == Split(k, '.')
  }

  predicate DistinctValues(branches: seq<Branch>)
  {
    forall b, d :: b in branches && d in branches && b.value == d.value ==> b == d
  }

  /**
   * Whatever the values of the leaves, lookups agree if the leaves are in such an order; and only then, unless
   * two leaves happen to hold the same value.
   */
  lemma FlatIsLookupIffOrdered(fields: seq<Field>)
    requires DistinctKeys(fields)
    ensures Ordered(Branches(fields)) ==> FlatIsLookup(fields)
    ensures DistinctValues(Branches(fields)) ==> (FlatIsLookup(fields) <==> Ordered(Branches(fields)))
  {
    var branches := Branches(fields);
    FlatIsLookupIff(fields);
    if Ordered(branches) {
      forall b | b in branches ensures Plain(b.keys) || Overruled(b, branches) {
      }
    }
    if FlatIsLookup(fields) && DistinctValues(branches) {
      forall b | b in branches
        ensures Plain(b.keys) || (!Dotless(b.keys) && LastIsNested(branches, PathOf("", b.keys)))
      {
        if !Plain(b.keys) {
          LookupOverrules(fields, b);
          OverruledIsOrdered(b, branches);
        }
      }
    }
  }

  lemma OverruledIsOrdered(b: Branch, branches: seq<Branch>)
    requires DistinctValues(branches) && b in branches && Overruled(b, branches) && !Plain(b.keys)
    ensures !Dotless(b.keys) && LastIsNested(branches, PathOf("", b.keys))
  {
    var k := PathOf("", b.keys);
    var d :| d in branches && d.keys == Split(k, '.') && Some(d.value) == ValueOn(branches, k);
    assert LastOn(branches, k) == Some(d);
    if Dotless(b.keys) {
      var own := Join(b.keys, ".");
      assert LastOn(branches, own) == Some(b);
      var plain := PathOfDotless(b.keys);
      PathOfPlain(plain);
      SplitOfJoin(b.keys);
    }
  }

  /** No two leaves have the same path: nothing is written over. */
  predicate NoSharedPath(branches: seq<Branch>)
  {
    forall b, d :: b in branches && d in branches && PathOf("", b.keys) == PathOf("", d.keys) ==> b == d
  }

  /** Where nothing is written over, lookups agree exactly when all leaves have plain keys. */
  lemma FlatIsLookupIffPlain(fields: seq<Field>)
    requires DistinctKeys(fields) && NoSharedPath(Branches(fields))
    ensures FlatIsLookup(fields) <==> forall b <- Branches(fields) :: Plain(b.keys)
  {
    FlatIsLookupIff(fields);
    var branches := Branches(fields);
    if FlatIsLookup(fields) {
      forall b | b in branches ensures Plain(b.keys) {
        var d := LeafOfPath(branches, b);
        if !Plain(d.keys) {
          var e := LeafOfPath(branches, d);
          var plain := PathOfDotless(d.keys);
          PathOfPlain(plain);
        } else {
          PathOfPlain(d.keys);
        }
      }
    }
  }

  /** The leaf that the path of a leaf leads to. */
  lemma LeafOfPath(branches: seq<Branch>, b: Branch) returns (d: Branch)
    requires b in branches && (Plain(b.keys) || Overruled(b, branches))
    ensures d in branches && d.keys == Split(PathOf("", b.keys), '.') && Dotless(d.keys)
    ensures Join(d.keys, ".") == PathOf("", b.keys)
  {
    SplitThenJoin(PathOf("", b.keys), '.');
    if Plain(b.keys) {
      PathOfPlain(b.keys);
      d := b;
    } else {
      d :| d in branches && d.keys == Split(PathOf("", b.keys), '.');
    }
  }

  lemma TwoBranches(f: Field, key: string, g: Field)
    requires f.value.Leaf? && g.value.Leaf? && f.key != key
    ensures var nested := Field(key, Object([g]));
            && DistinctKeys([f, nested]) && DistinctKeys([nested, f])
            && Branches([f, nested]) == [Branch([f.key], f.value), Branch([key, g.key], g.value)]
            && Branches([nested, f]) == [Branch([key, g.key], g.value), Branch([f.key], f.value)]
  {
    var nested := Field(key, Object([g]));
    assert [g][1..] == [] && [f, nested][1..] == [nested] && [nested, f][1..] == [f];
    assert [nested][1..] == [] && [f][1..] == [];
    var inner := Branches([g]);
    assert inner == [Branch([g.key], g.value)] && inner[1..] == [];
    assert DistinctKeys([g]) && DistinctKeys([f]) && DistinctKeys([nested]);
    assert [key] + inner[0].keys == [key, g.key] && Prefixed(key, inner[1..]) == [];
    assert Prefixed(key, Branches([g])) == [Branch([key, g.key], g.value)];
    assert Branches([nested]) == [Branch([key, g.key], g.value)] && Branches([f]) == [Branch([f.key], f.value)];
  }

  lemma DottedPaths()
    ensures PathOf("", ["a.b"]) == "a.b" == PathOf("", ["a", "b"]) == Join(["a", "b"], ".")
            && Split("a.b", '.') == ["a", "b"]
    ensures !Dotless(["a.b"]) && Plain(["a", "b"])
  {
    assert ["a.b"][1..] == [] && ["a", "b"][1..] == ["b"] && ["b"][1..] == [];
    assert PathOf("a.b", []) == "a.b" && PathOf("a", ["b"]) == PathOf(Under("a", "b"), []);
    assert "a.b"[1] == '.' && "a.b" in ["a.b"];
    assert "a.b" == "a" + ['.'] + "b";
    assert "a"[0] == 'a' && "b"[0] == 'b' && |"a"| == |"b"| == 1;
    SplitAtSeparator("a", "b", '.');
    FirstPart("a", '.');
    FirstPart("b", '.');
  }

  /** A dotted key followed by the nested ones it stands for: it is written over, and lookups agree all the same. */
  lemma DottedKeyIsOverwritten(first: Json, second: Json)
    requires first.Leaf? && second.Leaf?
    ensures var fields := [Field("a.b", first), Field("a", Object([Field("b", second)]))];
            Flat(map[], fields, "") == map["a.b" := second] && FlatIsLookup(fields)
  {
    var inner := [Field("b", second)];
    var fields := [Field("a.b", first), Field("a", Object(inner))];
    assert fields[1..] == [Field("a", Object(inner))] && fields[1..][1..] == [] && inner[1..] == [];
    assert Under("a", "b") == "a.b";
    var once: map<string, Json> := map["a.b" := first];
    assert map[]["a.b" := first] == once;
    assert Flat(once, inner, "a") == once["a.b" := second] == map["a.b" := second];
    assert Flat(map[], fields, "") == Flat(once, fields[1..], "") == Flat(once, inner, "a");
    assert |"a.b"| != |"a"|;
    TwoBranches(fields[0], "a", inner[0]);
    DottedPaths();
    var branches := Branches(fields);
    assert branches[1] in branches && branches[..1] == [branches[0]];
    FlatIsLookupIff(fields);
  }

  /** The other way round the nested leaf is lost: lookups agree only if the two values happen to be the same. */
  lemma DottedKeyWritesOver(first: Json, second: Json)
    requires first.Leaf? && second.Leaf?
    ensures FlatIsLookup([Field("a", Object([Field("b", second)])), Field("a.b", first)]) <==> first == second
  {
    var inner := [Field("b", second)];
    var fields := [Field("a", Object(inner)), Field("a.b", first)];
    assert |"a.b"| != |"a"|;
    TwoBranches(fields[1], "a", inner[0]);
    DottedPaths();
    var branches := Branches(fields);
    assert branches[0] in branches && branches[1] in branches;
    assert LastOn(branches, "a.b") == Some(branches[1]);
    FlatIsLookupIff(fields);
    assert Overruled(branches[1], branches) <==> first == second by {
      assert ValueOn(branches, "a.b") == Some(first);
    }
  }

  /** An empty key on top leaves no trace in the paths. */
  lemma EmptyKeyVanishes(value: Json)
    requires value.Leaf?
    ensures Flat(map[], [Field("", Object([Field("a", value)]))], "") == map["a" := value]
  {
    var inner := [Field("a", value)];
    var fields := [Field("", Object(inner))];
    assert inner[1..] == [] && fields[1..] == [];
    assert Flat(map[], inner, "") == map["a" := value];
  }

  /* ---------- the two functions as they fill a shared object ---------- */

  class FlatObject {
    var entries: map<string, Json>

    constructor ()
      ensures entries == map[]
    {
      entries := map[];
    }
  }

  method FlattenObject(target: seq<Field>) returns (output: FlatObject)
    ensures fresh(output) && output.entries == Flat(map[], target, "")
  {
    output := new FlatObject();
    FlattenStep(output, target, "");
  }

  method FlattenStep(output: FlatObject, fields: seq<Field>, prev: string)
    modifies output
    ensures output.entries == Flat(old(output.entries), fields, prev)
    decreases fields
  {
    for i := 0 to |fields|
      invariant Flat(old(output.entries), fields, prev) == Flat(output.entries, fields[i..], prev)
    {
      var newKey := Under(prev, fields[i].key);
      assert fields[i..][1..] == fields[i + 1..];
      if fields[i].value.Object? {
        FlattenStep(output, fields[i].value.fields, newKey);
      } else {
        output.entries := output.entries[newKey := fields[i].value];
      }
    }
  }

  /** An extracted field: its path, with its value when values are asked for. */
  datatype Extracted = Path(path: string) | PathAndValue(pair: Pair)

  function Extract(pairs: seq<Pair>, alsoExtractValues: bool): (r: seq<Extracted>)
    ensures |r| == |pairs|
    ensures forall i :: 0 <= i < |r| ==> r[i] == if alsoExtractValues then PathAndValue(pairs[i])
                                                 else Path(pairs[i].key)
  {
    if pairs == [] then []
    else
      [if alsoExtractValues then PathAndValue(pairs[0]) else Path(pairs[0].key)]
      + Extract(pairs[1..], alsoExtractValues)
  }

  class FieldList {
    var items: seq<Extracted>

    constructor ()
      ensures items == []
    {
      items := [];
    }
  }

  method ExtractFields(fields: seq<Field>, fieldsToIgnore: seq<string>, alsoExtractValues: bool, path: string,
                       extractedFields: FieldList)
    modifies extractedFields
    ensures extractedFields.items ==
            old(extractedFields.items) + Extract(Pairs(fields, fieldsToIgnore, path), alsoExtractValues)
    decreases fields
  {
    ghost var done: seq<Pair> := [];
    assert old(extractedFields.items) + Extract(done, alsoExtractValues) == extractedFields.items;
    for i := 0 to |fields|
      invariant extractedFields.items == old(extractedFields.items) + Extract(done, alsoExtractValues)
      invariant Pairs(fields, fieldsToIgnore, path) == done + Pairs(fields[i..], fieldsToIgnore, path)
    {
      var key, value := fields[i].key, fields[i].value;
      assert fields[i..][1..] == fields[i + 1..];
      ghost var pushed: seq<Pair> := [];
      ghost var before := extractedFields.items;
      if !Ignored(key, fieldsToIgnore) {
        var currentPath := Under(path, key);
        if value.Object? {
          pushed := Pairs(value.fields, fieldsToIgnore, currentPath);
          ExtractFields(value.fields, fieldsToIgnore, alsoExtractValues, currentPath, extractedFields);
        } else {
          pushed := [Pair(currentPath, value)];
          ExtractOne(pushed[0], alsoExtractValues);
          var field := if alsoExtractValues then PathAndValue(Pair(currentPath, value)) else Path(currentPath);
          extractedFields.items := extractedFields.items + [field];
        }
      }
      assert extractedFields.items == before + Extract(pushed, alsoExtractValues);
      AfterPush(old(extractedFields.items), done, pushed, alsoExtractValues);
      RestOf(fields, i, fieldsToIgnore, path, done, pushed);
      done := done + pushed;
    }
  }

  /** The pairs of the field at `i` come first among those that remain. */
  lemma RestOf(fields: seq<Field>, i: nat, fieldsToIgnore: seq<string>, path: string, done: seq<Pair>,
               pushed: seq<Pair>)
    requires i < |fields|
    requires pushed == if Ignored(fields[i].key, fieldsToIgnore) then []
                       else if fields[i].value.Object? then
                         Pairs(fields[i].value.fields, fieldsToIgnore, Under(path, fields[i].key))
                       else [Pair(Under(path, fields[i].key), fields[i].value)]
    ensures done + Pairs(fields[i..], fieldsToIgnore, path) ==
            (done + pushed) + Pairs(fields[i + 1..], fieldsToIgnore, path)
  {
    assert fields[i..][1..] == fields[i + 1..];
    assert Pairs(fields[i..], fieldsToIgnore, path) == pushed + Pairs(fields[i + 1..], fieldsToIgnore, path);
    Regroup(done, pushed, Pairs(fields[i + 1..], fieldsToIgnore, path));
  }

  lemma ExtractConcat(a: seq<Pair>, b: seq<Pair>, alsoExtractValues: bool)
    ensures Extract(a + b, alsoExtractValues) == Extract(a, alsoExtractValues) + Extract(b, alsoExtractValues)
  {
  }

  lemma ExtractOne(pair: Pair, alsoExtractValues: bool)
    ensures Extract([pair], alsoExtractValues) == [if alsoExtractValues then PathAndValue(pair) else Path(pair.key)]
  {
  }

  lemma AfterPush(before: seq<Extracted>, done: seq<Pair>, pushed: seq<Pair>, alsoExtractValues: bool)
    ensures before + Extract(done, alsoExtractValues) + Extract(pushed, alsoExtractValues) ==
            before + Extract(done + pushed, alsoExtractValues)
  {
    ExtractConcat(done, pushed, alsoExtractValues);
    Regroup(before, Extract(done, alsoExtractValues), Extract(pushed, alsoExtractValues));
  }
}
