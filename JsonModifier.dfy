/** The JSON patcher: walks a dot-separated path into a decoded document,
    making room along the way, then stores a value at the end of the path
    or merges it into the array found there. Documents are the values
    `json_decode($s, true)` yields: PHP arrays (ordered maps whose keys are
    integers or strings) and scalars. */
module JsonModifier {
  import opened Outcomes
  import opened Text

  datatype Json =
    | Null
    | Bool(b: bool)
    | Number(n: int)
    | String(s: string)
    | Array(items: seq<(ArrayKey, Json)>)

  type Items = seq<(ArrayKey, Json)>

  /** What PHP raises when a path step indexes a scalar root. */
  const ScalarFailure: Failure := EngineError("Cannot use a scalar value as an array")

  /** What PHP raises when `$a[] = …` finds the key PHP_INT_MAX taken. */
  const AppendFailure: Failure := EngineError("Cannot add element to the array as the next element is already occupied")

  predicate HasKey(items: Items, k: ArrayKey) {
    exists i :: 0 <= i < |items| && items[i].0 == k
  }

  /** `in_array`: some entry holds the value, compared structurally (strict);
      the source's loose comparison is left out. */
  predicate HasValue(items: Items, x: Json) {
    exists i :: 0 <= i < |items| && items[i].1 == x
  }

  /** What every PHP array satisfies: no key occurs twice. */
  predicate DistinctKeys(items: Items) {
    forall i, j :: 0 <= i < j < |items| ==> items[i].0 != items[j].0
  }

  predicate StringKeyed(items: Items) {
    forall i :: 0 <= i < |items| ==> items[i].0.Str?
  }

  predicate IntKeyed(items: Items) {
    forall i :: 0 <= i < |items| ==> items[i].0.Int?
  }

  /** `$a[$k]`, or `None` where `isset`-style lookup finds no key. */
  function Lookup(items: Items, k: ArrayKey): (r: Option<Json>)
    ensures r.Some? <==> HasKey(items, k)
    decreases |items|
  {
    if items == [] then None
    else if items[0].0 == k then Some(items[0].1)
    else
      var r := Lookup(items[1..], k);
      assert forall i :: 1 <= i < |items| ==> items[i] == items[1..][i - 1];
      r
  }

  /** `$a[$k] = $v`: an existing key keeps its place and takes the new
      value, a new key goes last. */
  function Assign(items: Items, k: ArrayKey, v: Json): Items
    decreases |items|
  {
    if items == [] then [(k, v)]
    else if items[0].0 == k then [(k, v)] + items[1..]
    else [items[0]] + Assign(items[1..], k, v)
  }

  /** After `$a[$k] = $v`, the key holds `$v` and every other key what it
      held before. */
  lemma {:induction false} LookupAssign(items: Items, k: ArrayKey, v: Json, k': ArrayKey)
    ensures Lookup(Assign(items, k, v), k') == if k' == k then Some(v) else Lookup(items, k')
    decreases |items|
  {
    if items != [] && items[0].0 != k {
      LookupAssign(items[1..], k, v, k');
      var r := Assign(items, k, v);
      assert r[1..] == Assign(items[1..], k, v);
      if items[0].0 != k' {
        assert Lookup(r, k') == Lookup(r[1..], k');
      }
    }
  }

  /** The largest integer key, if any. */
  function MaxIntKey(items: Items): (r: Option<int>)
    ensures r.None? ==> forall i :: 0 <= i < |items| ==> items[i].0.Str?
    ensures r.Some? ==> HasKey(items, Int(r.value))
    ensures r.Some? ==> forall i :: 0 <= i < |items| && items[i].0.Int? ==> items[i].0.i <= r.value
    decreases |items|
  {
    if items == [] then None
    else
      var rest := MaxIntKey(items[..|items| - 1]);
      var last := items[|items| - 1].0;
      assert forall i :: 0 <= i < |items| - 1 ==> items[i] == items[..|items| - 1][i];
      if last.Int? && (rest.None? || rest.value < last.i) then Some(last.i) else rest
  }

  /** `$a[] = $x`: the value under the integer after the largest one (0
      when there is none), or the engine error when that would pass
      PHP_INT_MAX. */
  function Append(items: Items, x: Json): (r: Result<Items>)
    ensures r.Err? ==> r.failure == AppendFailure
    ensures r.Ok? ==> |r.value| == |items| + 1 && r.value[..|items|] == items
    ensures r.Ok? ==> r.value[|items|].1 == x && !HasKey(items, r.value[|items|].0)
    ensures r.Ok? ==> r.value[|items|].0.Int?
    ensures r.Err? <==> exists i :: 0 <= i < |items| && items[i].0.Int? && items[i].0.i >= PhpIntMax
    ensures r.Ok? ==> forall i :: 0 <= i < |items| && items[i].0.Int? ==> items[i].0.i < r.value[|items|].0.i
    ensures r.Ok? ==> var n := r.value[|items|].0.i;
      HasKey(items, Int(n - 1)) || (n == 0 && forall i :: 0 <= i < |items| ==> items[i].0.Str?)
  {
    match MaxIntKey(items)
    case None => Ok(items + [(Int(0), x)])
    case Some(m) =>
      if m >= PhpIntMax then Err(AppendFailure) else Ok(items + [(Int(m + 1), x)])
  }

  /** One round of the merge loop: a string key is assigned, an integer
      key's value is appended unless the array already holds it. */
  function MergeItem(items: Items, entry: (ArrayKey, Json)): Result<Items> {
    if entry.0.Str? then Ok(Assign(items, entry.0, entry.1))
    else if HasValue(items, entry.1) then Ok(items)
    else Append(items, entry.1)
  }

  /** The array after the first `n` entries of `value` were merged in. */
  function Merged(items: Items, value: Items, n: nat): (r: Result<Items>)
    requires n <= |value|
    ensures r.Err? ==> r.failure == AppendFailure
    decreases n
  {
    if n == 0 then Ok(items)
    else
      var done :- Merged(items, value, n - 1);
      MergeItem(done, value[n - 1])
  }

  /** The merge loop of `JsonModifier::add`. */
  method MergeInto(items: Items, value: Items) returns (r: Result<Items>)
    ensures r == Merged(items, value, |value|)
  {
    var current := items;
    for i := 0 to |value|
      invariant Merged(items, value, i) == Ok(current)
    {
      var next := MergeItem(current, value[i]);
      if next.Err? {
        MergedStaysFailed(items, value, i + 1, |value|);
        return next;
      }
      current := next.value;
    }
    r := Ok(current);
  }

  /** Once a merge round fails, the whole merge fails. */
  lemma {:induction false} MergedStaysFailed(items: Items, value: Items, i: nat, n: nat)
    requires i <= n <= |value| && Merged(items, value, i).Err?
    ensures Merged(items, value, n) == Merged(items, value, i)
    decreases n
  {
    if n > i {
      MergedStaysFailed(items, value, i, n - 1);
    }
  }

  /** A scalar value is merged as the one-element list `[$value]`. */
  function Wrap(value: Json): (r: Items)
    ensures !value.Array? ==> r == [(Int(0), value)]
  {
    if value.Array? then value.items else [(Int(0), value)]
  }

  /** The array a path step indexes: `null` and `false` become an empty
      array, any other scalar is an engine error. */
  function Container(node: Json): (r: Result<Items>)
    ensures r.Err? <==> !(node.Array? || node == Null || node == Bool(false))
  {
    match node
    case Null => Ok([])
    case Bool(b) => if b then Err(ScalarFailure) else Ok([])
    case Array(items) => Ok(items)
    case _ => Err(ScalarFailure)
  }

  /** The child a path step descends into: the array under the key, or a
      fresh `null` where the key is missing or holds no array. */
  function Child(items: Items, k: ArrayKey): (c: Json)
    ensures c.Array? || c == Null
  {
    match Lookup(items, k)
    case Some(Array(c)) => Array(c)
    case _ => Null
  }

  /** The array after a path step: a key that holds no array is set to
      `null` first (kept in place, or added last). */
  function Walked(items: Items, k: ArrayKey): Items {
    if Child(items, k).Array? then items else Assign(items, k, Null)
  }

  /** The end of the path: an array there has the value merged in, any
      other node is replaced by the value. */
  function Leaf(next: Json, value: Json): (r: Result<Json>)
    ensures r.Err? ==> r.failure == AppendFailure
  {
    if next.Array? then
      var merged :- Merged(next.items, Wrap(value), |Wrap(value)|);
      Ok(Array(merged))
    else Ok(value)
  }

  /** The document after storing or merging `value` at `keys`. */
  function Put(node: Json, keys: seq<ArrayKey>, value: Json): (r: Result<Json>)
    requires |keys| >= 1
    ensures Container(node).Err? ==> r == Err(ScalarFailure)
    ensures Container(node).Ok? && r.Err? ==> r.failure == AppendFailure
    ensures r.Ok? ==> r.value.Array?
    decreases |keys|, 1
  {
    var items :- Container(node);
    var sub :- Below(items, keys, value);
    Ok(Array(Assign(Walked(items, keys[0]), keys[0], sub)))
  }

  /** What the first key of the path is to hold after `add`. */
  function Below(items: Items, keys: seq<ArrayKey>, value: Json): (r: Result<Json>)
    requires |keys| >= 1
    ensures r.Err? ==> r.failure == AppendFailure
    decreases |keys|, 0
  {
    var next := Child(items, keys[0]);
    if |keys| == 1 then Leaf(next, value) else Put(next, keys[1..], value)
  }

  /** The keys `explode('.', $path)` indexes with. */
  function PathKeys(path: string): (r: seq<ArrayKey>)
    ensures |r| == |Split(path, '.')| >= 1
  {
    var segments := Split(path, '.');
    seq(|segments|, i requires 0 <= i < |segments| => KeyOf(segments[i]))
  }

  /** `JsonModifier::add` on the decoded document. */
  function Added(root: Json, path: string, value: Json): Result<Json> {
    Put(root, PathKeys(path), value)
  }

  /** The walk and merge of `JsonModifier::add`: descends along the path,
      then runs the merge loop or stores the value. */
  method PutAt(node: Json, keys: seq<ArrayKey>, value: Json) returns (r: Result<Json>)
    requires |keys| >= 1
    ensures r == Put(node, keys, value)
    decreases |keys|
  {
    var items :- Container(node);
    var k := keys[0];
    var next := Child(items, k);
    var walked := items;
    if !next.Array? {
      walked := Assign(items, k, Null);
    }
    var sub: Json;
    if |keys| == 1 && next.Array? {
      var merged :- MergeInto(next.items, Wrap(value));
      sub := Array(merged);
    } else if |keys| == 1 {
      sub := value;
    } else {
      sub :- PutAt(next, keys[1..], value);
    }
    r := Ok(Array(Assign(walked, k, sub)));
  }

  method Add(root: Json, path: string, value: Json) returns (r: Result<Json>)
    ensures r == Added(root, path, value)
  {
    r := PutAt(root, PathKeys(path), value);
  }

  /** The node at a path, if every step finds an array and the key. */
  function Get(node: Json, q: seq<ArrayKey>): Option<Json>
    decreases |q|
  {
    if q == [] then Some(node)
    else if !node.Array? then None
    else
      match Lookup(node.items, q[0])
      case None => None
      case Some(c) => Get(c, q[1..])
  }

  /** One level of `add`: the first key of the path holds what `Below`
      computes, every other key what it held before. */
  lemma PutShape(node: Json, keys: seq<ArrayKey>, value: Json, k': ArrayKey)
    requires |keys| >= 1 && Put(node, keys, value).Ok?
    ensures var items := Container(node).value;
      var once := Put(node, keys, value).value.items;
      Lookup(once, k') == if k' == keys[0] then Some(Below(items, keys, value).value) else Lookup(items, k')
  {
    var items := Container(node).value;
    var k := keys[0];
    var sub := Below(items, keys, value).value;
    LookupAssign(Walked(items, k), k, sub, k');
    if k' != k && !Child(items, k).Array? {
      LookupAssign(items, k, Null, k');
    }
  }

  /** After `add`, the path leads to the value, or, where it led to an
      array before, to that array with the value merged in. */
  lemma {:induction false} PutStores(node: Json, keys: seq<ArrayKey>, value: Json)
    requires |keys| >= 1 && Put(node, keys, value).Ok?
    ensures var r := Put(node, keys, value).value;
      match Get(node, keys)
      case Some(Array(c)) =>
        Get(r, keys).Some? && Get(r, keys).value.Array?
        && Merged(c, Wrap(value), |Wrap(value)|) == Ok(Get(r, keys).value.items)
      case _ => Get(r, keys) == Some(value)
    decreases |keys|
  {
    var items := Container(node).value;
    var k := keys[0];
    var next := Child(items, k);
    var r := Put(node, keys, value).value;
    PutShape(node, keys, value, k);
    assert Get(r, keys) == Get(Below(items, keys, value).value, keys[1..]);
    if |keys| == 1 {
      assert Get(r, keys) == Some(Below(items, keys, value).value);
      if node.Array? {
        assert Get(node, keys) == Lookup(items, k);
      } else {
        assert Get(node, keys) == None;
        assert items == [];
      }
    } else {
      PutStores(next, keys[1..], value);
      if next.Array? {
        assert Get(node, keys) == Get(next, keys[1..]);
      } else {
        assert Get(node, keys) == None by {
          GetScalar(Lookup(items, k), keys[1..]);
        }
      }
    }
  }

  /** Below a node that is no array, nothing is found. */
  lemma GetScalar(c: Option<Json>, q: seq<ArrayKey>)
    requires q != [] && (c.None? || !c.value.Array?)
    ensures c.Some? ==> Get(c.value, q) == None
  {
  }

  /** A path that leaves the `add` path somewhere along it leads to the
      same node before and after: keys off the path are unchanged at every
      level. */
  lemma {:induction false} PutOffPath(node: Json, keys: seq<ArrayKey>, value: Json, q: seq<ArrayKey>, i: nat)
    requires |keys| >= 1 && Put(node, keys, value).Ok?
    requires i < |q| && i < |keys| && q[i] != keys[i]
    requires forall j :: 0 <= j < i ==> q[j] == keys[j]
    ensures Get(Put(node, keys, value).value, q) == Get(node, q)
    decreases i
  {
    var items := Container(node).value;
    var k := keys[0];
    var next := Child(items, k);
    PutShape(node, keys, value, q[0]);
    if i > 0 {
      PutOffPath(next, keys[1..], value, q[1..], i - 1);
      if next.Array? {
        assert Get(node, q) == Get(next, q[1..]);
      } else {
        GetScalar(Lookup(items, k), q[1..]);
      }
    }
  }

  /** Assigning a key the value it already has changes nothing. */
  lemma {:induction false} AssignSame(items: Items, k: ArrayKey, v: Json)
    requires Lookup(items, k) == Some(v)
    ensures Assign(items, k, v) == items
    decreases |items|
  {
    if items[0].0 != k {
      AssignSame(items[1..], k, v);
    }
  }

  /** Assigning a key twice is assigning it the second value. */
  lemma {:induction false} AssignTwice(items: Items, k: ArrayKey, a: Json, b: Json)
    ensures Assign(Assign(items, k, a), k, b) == Assign(items, k, b)
    decreases |items|
  {
    if items != [] && items[0].0 != k {
      AssignTwice(items[1..], k, a, b);
    }
  }

  /** The array already holds every entry of `value`: each string key with
      its value, each integer-keyed value somewhere. */
  predicate Settled(items: Items, value: Items) {
    forall i :: 0 <= i < |value| ==>
      if value[i].0.Str? then Lookup(items, value[i].0) == Some(value[i].1)
      else HasValue(items, value[i].1)
  }

  /** Merging entries the array already holds changes nothing. */
  lemma {:induction false} MergeSettled(items: Items, value: Items, n: nat)
    requires n <= |value| && Settled(items, value)
    ensures Merged(items, value, n) == Ok(items)
    decreases n
  {
    if n > 0 {
      MergeSettled(items, value, n - 1);
      if value[n - 1].0.Str? {
        AssignSame(items, value[n - 1].0, value[n - 1].1);
      }
    }
  }

  /** Merging keeps every key the array had and its value, unless a string
      key of the merged entries names it. */
  lemma {:induction false} MergedKeeps(items: Items, value: Items, n: nat, k: ArrayKey)
    requires n <= |value| && Merged(items, value, n).Ok?
    requires HasKey(items, k)
    requires forall i :: 0 <= i < n ==> value[i].0 != k || value[i].0.Int?
    ensures Lookup(Merged(items, value, n).value, k) == Lookup(items, k)
    decreases n
  {
    if n > 0 {
      MergedKeeps(items, value, n - 1, k);
      var done := Merged(items, value, n - 1).value;
      AppendKeeps(done, value[n - 1], k);
    }
  }

  /** A merge round keeps what the array held under every key other than
      a string key it assigns. */
  lemma AppendKeeps(items: Items, entry: (ArrayKey, Json), k: ArrayKey)
    requires MergeItem(items, entry).Ok? && HasKey(items, k)
    requires entry.0 != k || entry.0.Int?
    ensures Lookup(MergeItem(items, entry).value, k) == Lookup(items, k)
    ensures HasKey(MergeItem(items, entry).value, k)
  {
    if entry.0.Str? {
      LookupAssign(items, entry.0, entry.1, k);
    } else if !HasValue(items, entry.1) {
      var r := Append(items, entry.1).value;
      assert r == items + [r[|items|]];
      LookupSnoc(items, r[|items|], k);
    }
  }

  /** Adding an entry under a new key at the end leaves the lookup of
      present keys alone. */
  lemma {:induction false} LookupSnoc(items: Items, e: (ArrayKey, Json), k: ArrayKey)
    requires HasKey(items, k)
    ensures Lookup(items + [e], k) == Lookup(items, k)
    decreases |items|
  {
    if items[0].0 != k {
      assert (items + [e])[1..] == items[1..] + [e];
      LookupSnoc(items[1..], e, k);
    }
  }

  /** After merging a value whose keys are distinct, every string key holds
      the value merged under it. */
  lemma {:induction false} MergedStrings(items: Items, value: Items, n: nat)
    requires n <= |value| && Merged(items, value, n).Ok? && DistinctKeys(value)
    ensures forall i :: 0 <= i < n && value[i].0.Str? ==>
      Lookup(Merged(items, value, n).value, value[i].0) == Some(value[i].1)
    decreases n
  {
    if n > 0 {
      MergedStrings(items, value, n - 1);
      var done := Merged(items, value, n - 1).value;
      if value[n - 1].0.Str? {
        LookupAssign(done, value[n - 1].0, value[n - 1].1, value[n - 1].0);
      }
      forall i | 0 <= i < n - 1 && value[i].0.Str?
        ensures Lookup(MergeItem(done, value[n - 1]).value, value[i].0) == Some(value[i].1)
      {
        AppendKeeps(done, value[n - 1], value[i].0);
      }
    }
  }

  /** After merging integer-keyed entries, the array holds each of their
      values. */
  lemma {:induction false} MergedInts(items: Items, value: Items, n: nat)
    requires n <= |value| && Merged(items, value, n).Ok? && IntKeyed(value)
    ensures forall i :: 0 <= i < n ==> HasValue(Merged(items, value, n).value, value[i].1)
    decreases n
  {
    if n > 0 {
      MergedInts(items, value, n - 1);
      var done := Merged(items, value, n - 1).value;
      var r := Merged(items, value, n).value;
      forall i | 0 <= i < n
        ensures HasValue(r, value[i].1)
      {
        if !HasValue(done, value[n - 1].1) {
          assert r[|done|].1 == value[n - 1].1;
          if i < n - 1 {
            var j :| 0 <= j < |done| && done[j].1 == value[i].1;
            assert r[j] == r[..|done|][j];
          }
        }
      }
    }
  }

  /** A value merges idempotently when it has only string keys or only
      integer keys. */
  predicate Uniform(value: Items) {
    DistinctKeys(value) && (StringKeyed(value) || IntKeyed(value))
  }

  /** Merging a uniform value leaves an array that holds all of it. */
  lemma MergedSettled(items: Items, value: Items)
    requires Uniform(value) && Merged(items, value, |value|).Ok?
    ensures Settled(Merged(items, value, |value|).value, value)
  {
    if StringKeyed(value) {
      MergedStrings(items, value, |value|);
    } else {
      MergedInts(items, value, |value|);
    }
  }

  /** A uniform array holds all of itself. */
  lemma SelfSettled(value: Items)
    requires DistinctKeys(value)
    ensures Settled(value, value)
  {
    forall i | 0 <= i < |value|
      ensures if value[i].0.Str? then Lookup(value, value[i].0) == Some(value[i].1)
        else HasValue(value, value[i].1)
    {
      if value[i].0.Str? {
        LookupAt(value, i);
      }
    }
  }

  lemma {:induction false} LookupAt(items: Items, i: nat)
    requires i < |items| && DistinctKeys(items)
    ensures Lookup(items, items[i].0) == Some(items[i].1)
    decreases i
  {
    if i > 0 {
      assert items[0].0 != items[i].0;
      LookupAt(items[1..], i - 1);
    }
  }

  /** The end of the path, reached a second time, is left as it is. */
  lemma LeafIdempotent(next: Json, value: Json)
    requires Leaf(next, value).Ok? && Uniform(Wrap(value))
    ensures var sub := Leaf(next, value).value;
      Leaf(sub, value) == Ok(sub)
  {
    if next.Array? {
      var merged := Merged(next.items, Wrap(value), |Wrap(value)|).value;
      MergedSettled(next.items, Wrap(value));
      MergeSettled(merged, Wrap(value), |Wrap(value)|);
    } else if value.Array? {
      SelfSettled(value.items);
      MergeSettled(value.items, value.items, |value.items|);
    }
  }

  /** `add` is idempotent for a scalar value, and for an array value whose
      keys are all strings or all integers. */
  lemma {:induction false} PutIdempotent(node: Json, keys: seq<ArrayKey>, value: Json)
    requires |keys| >= 1 && Put(node, keys, value).Ok?
    requires Uniform(Wrap(value))
    ensures var once := Put(node, keys, value).value;
      Put(once, keys, value) == Ok(once)
    decreases |keys|
  {
    var items := Container(node).value;
    var k := keys[0];
    var next := Child(items, k);
    var sub := Below(items, keys, value).value;
    var once := Put(node, keys, value).value;
    PutShape(node, keys, value, k);
    assert Below(once.items, keys, value) == Ok(sub) by {
      if |keys| == 1 {
        LeafIdempotent(next, value);
        if !sub.Array? {
          assert !next.Array?;
        }
      } else {
        PutIdempotent(next, keys[1..], value);
      }
    }
    if sub.Array? {
      AssignSame(once.items, k, sub);
    } else {
      AssignTwice(once.items, k, Null, sub);
      AssignSame(once.items, k, sub);
    }
  }

  /** A value with both kinds of key need not merge idempotently: its
      string key can overwrite the copy that let its integer-keyed value be
      skipped the first time. */
  lemma MixedNotIdempotent()
    ensures var node := Array([(Str("a"), Array([(Str("k"), String("x"))]))]);
      var value := Array([(Int(0), String("x")), (Str("k"), String("y"))]);
      var once := Put(node, [Str("a")], value);
      && once == Ok(Array([(Str("a"), Array([(Str("k"), String("y"))]))]))
      && Put(once.value, [Str("a")], value)
        == Ok(Array([(Str("a"), Array([(Str("k"), String("y")), (Int(0), String("x"))]))]))
  {
    var value := [(Int(0), String("x")), (Str("k"), String("y"))];
    var inner := [(Str("k"), String("x"))];
    var inner2 := [(Str("k"), String("y"))];
    var inner3 := inner2 + [(Int(0), String("x"))];
    assert HasValue(inner, String("x")) by {
      assert inner[0].1 == String("x");
    }
    assert Assign(inner, Str("k"), String("y")) == inner2 by {
      assert inner[1..] == [];
    }
    assert Merged(inner, value, 2) == Ok(inner2);
    assert !HasValue(inner2, String("x"));
    assert MaxIntKey(inner2) == None by {
      assert inner2[..0] == [];
    }
    assert Assign(inner3, Str("k"), String("y")) == inner3 by {
      assert inner3[1..] == [(Int(0), String("x"))];
    }
    assert Merged(inner2, value, 2) == Ok(inner3);
    var top := [(Str("a"), Array(inner))];
    var top2 := [(Str("a"), Array(inner2))];
    assert Assign(top, Str("a"), Array(inner2)) == top2 by {
      assert top[1..] == [];
    }
    assert Assign(top2, Str("a"), Array(inner3)) == [(Str("a"), Array(inner3))] by {
      assert top2[1..] == [];
    }
    assert Child(top2, Str("a")) == Array(inner2);
    assert Leaf(Array(inner2), Array(value)) == Ok(Array(inner3));
    assert Below(top2, [Str("a")], Array(value)) == Ok(Array(inner3));
    assert Walked(top2, Str("a")) == top2;
    assert inner3 == [(Str("k"), String("y")), (Int(0), String("x"))];
  }

  /** A sample: adding `newKey` to the empty object stores the value. */
  lemma NewKeyInEmpty()
    ensures Put(Array([]), [Str("newKey")], String("newValue"))
      == Ok(Array([(Str("newKey"), String("newValue"))]))
  {
    var k := Str("newKey");
    assert Assign([], k, Null) == [(k, Null)];
    assert Assign([(k, Null)], k, String("newValue")) == [(k, String("newValue"))] by {
      assert [(k, Null)][1..] == [];
    }
  }
}
