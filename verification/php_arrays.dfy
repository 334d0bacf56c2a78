/**
 * PHP values and PHP's ordered arrays, as far as the shared-contacts hooks use them.
 *
 * A PHP array is an ordered sequence of key/value entries.  Lookup finds the
 * first entry with the key, assignment to an existing key rewrites that entry
 * in place, assignment to a new key appends, and `$a[] = v` appends under the
 * next free integer index.
 */
module PhpArrays {
  import opened Wrappers

  /** Bounds of PHP's 64-bit `int`. */
  const PhpIntMax: int := 0x7FFF_FFFF_FFFF_FFFF
  const PhpIntMin: int := -0x8000_0000_0000_0000

  /** An array key; string keys that spell a decimal integer are assumed already folded to `IntKey`. */
  datatype Key = IntKey(i: int) | StrKey(s: string)

  /** The PHP values the hooks read or build (objects are not among them). */
  datatype Value =
    | Null
    | Bool(b: bool)
    | Int(n: int)
    | Str(s: string)
    | Arr(entries: seq<Entry>)

  datatype Entry = Entry(key: Key, val: Value)

  /** Raised by `$a[] = v` when the next integer index would pass PHP_INT_MAX. */
  datatype ArrayError = NextElementOccupied

  function KeysOf(es: seq<Entry>): (ks: seq<Key>)
    ensures |ks| == |es|
    ensures forall i :: 0 <= i < |es| ==> ks[i] == es[i].key
  {
    seq(|es|, i requires 0 <= i < |es| => es[i].key)
  }

  /** The values of the array in iteration order, as `foreach ($a as $v)` visits them. */
  function ValuesOf(es: seq<Entry>): (vs: seq<Value>)
    ensures |vs| == |es|
    ensures forall i :: 0 <= i < |es| ==> vs[i] == es[i].val
  {
    seq(|es|, i requires 0 <= i < |es| => es[i].val)
  }

  predicate DistinctKeys(es: seq<Entry>)
  {
    forall i, j :: 0 <= i < j < |es| ==> es[i].key != es[j].key
  }

  predicate ValidKey(k: Key)
  {
    k.IntKey? ==> PhpIntMin <= k.i <= PhpIntMax
  }

  /** What every real PHP array satisfies: unique keys, integer keys within range. */
  predicate WellFormed(es: seq<Entry>)
  {
    DistinctKeys(es) && forall i :: 0 <= i < |es| ==> ValidKey(es[i].key)
  }

  /** Position of the first entry with key `k`. */
  function IndexOf(es: seq<Entry>, k: Key): (r: Option<nat>)
    ensures r.Some? ==> r.value < |es| && es[r.value].key == k
    ensures r.Some? ==> forall j :: 0 <= j < r.value ==> es[j].key != k
    ensures r.None? <==> forall j :: 0 <= j < |es| ==> es[j].key != k
  {
    if |es| == 0 then None
    else if es[0].key == k then Some(0)
    else match IndexOf(es[1..], k)
      case None => None
      case Some(i) => Some(i + 1)
  }

  /** `$a[k]`, or `None` when the key is absent. */
  function Get(es: seq<Entry>, k: Key): Option<Value>
  {
    match IndexOf(es, k)
    case None => None
    case Some(i) => Some(es[i].val)
  }

  /** PHP's `isset($a[k])`: the key is present and its value is not `null`. */
  predicate IsSet(es: seq<Entry>, k: Key): (b: bool)
    ensures b <==> exists i :: 0 <= i < |es| && es[i].key == k && es[i].val != Null
                               && forall j :: 0 <= j < i ==> es[j].key != k
  {
    Get(es, k).Some? && Get(es, k).value != Null
  }

  /** Two arrays with the same key sequence find every key at the same position. */
  lemma SameKeysSameIndex(a: seq<Entry>, b: seq<Entry>, k: Key)
    requires KeysOf(a) == KeysOf(b)
    ensures IndexOf(a, k) == IndexOf(b, k)
  {
    assert forall j :: 0 <= j < |a| ==> a[j].key == b[j].key by {
      forall j | 0 <= j < |a| ensures a[j].key == b[j].key {
        assert KeysOf(a)[j] == KeysOf(b)[j];
      }
    }
  }

  /** `$a[k] = v`: rewrites the entry in place when `k` is present, appends it otherwise. */
  function Put(es: seq<Entry>, k: Key, v: Value): (r: seq<Entry>)
    ensures Get(r, k) == Some(v)
    ensures forall k' :: k' != k ==> Get(r, k') == Get(es, k')
    ensures k in KeysOf(es) ==> KeysOf(r) == KeysOf(es)
    ensures k !in KeysOf(es) ==> KeysOf(r) == KeysOf(es) + [k]
    ensures WellFormed(es) && ValidKey(k) ==> WellFormed(r)
  {
    match IndexOf(es, k)
    case Some(i) =>
      var r := es[i := Entry(k, v)];
      assert KeysOf(r) == KeysOf(es);
      assert forall k' :: IndexOf(r, k') == IndexOf(es, k') by {
        forall k' ensures IndexOf(r, k') == IndexOf(es, k') {
          SameKeysSameIndex(r, es, k');
        }
      }
      r
    case None =>
      var r := es + [Entry(k, v)];
      assert KeysOf(r) == KeysOf(es) + [k];
      assert forall k' :: k' != k ==> IndexOf(r, k') == IndexOf(es, k') by {
        forall k' | k' != k ensures IndexOf(r, k') == IndexOf(es, k') {
          assert forall j :: 0 <= j < |es| ==> r[j] == es[j];
          assert r[|es|].key != k';
        }
      }
      assert forall j :: 0 <= j < |es| ==> r[j].key != k;
      assert r[|es|].key == k;
      assert IndexOf(r, k) == Some(|es|);
      r
  }

  /** True when some integer key already sits at PHP_INT_MAX, so `$a[] = v` has no index left. */
  predicate NextSlotOccupied(es: seq<Entry>)
  {
    exists i :: 0 <= i < |es| && es[i].key.IntKey? && es[i].key.i >= PhpIntMax
  }

  /** The largest integer key of the array, `None` when it has only string keys. */
  function MaxIntKey(es: seq<Entry>): (m: Option<int>)
    ensures m.None? <==> forall i :: 0 <= i < |es| ==> !es[i].key.IntKey?
    ensures m.Some? ==> IntKey(m.value) in KeysOf(es)
    ensures m.Some? ==> forall i :: 0 <= i < |es| && es[i].key.IntKey? ==> es[i].key.i <= m.value
  {
    if |es| == 0 then None
    else
      var rest := MaxIntKey(es[1..]);
      assert forall i :: 1 <= i < |es| ==> es[i] == es[1..][i - 1];
      assert KeysOf(es) == [es[0].key] + KeysOf(es[1..]);
      if !es[0].key.IntKey? then rest
      else if rest.None? || rest.value < es[0].key.i then Some(es[0].key.i)
      else rest
  }

  /**
   * The index `$a[] = v` uses: one past the largest integer key, but never
   * below 0 (PHP 7.0 to 8.2); an error once that index would pass PHP_INT_MAX.
   */
  function NextIndex(es: seq<Entry>): (r: Result<int, ArrayError>)
    ensures r.Ok? <==> !NextSlotOccupied(es)
    ensures r.Ok? ==> 0 <= r.value <= PhpIntMax
    ensures r.Ok? ==> forall i :: 0 <= i < |es| && es[i].key.IntKey? ==> es[i].key.i < r.value
    ensures r.Ok? ==> r.value == 0 || IntKey(r.value - 1) in KeysOf(es)
  {
    match MaxIntKey(es)
    case None => Ok(0)
    case Some(m) =>
      if m < 0 then Ok(0)
      else if m >= PhpIntMax then
        assert exists i :: 0 <= i < |es| && es[i].key == IntKey(m) by {
          assert IntKey(m) in KeysOf(es);
        }
        Err(NextElementOccupied)
      else Ok(m + 1)
  }

  /** `$a[] = v`. */
  function Push(es: seq<Entry>, v: Value): (r: Result<seq<Entry>, ArrayError>)
    ensures r.Ok? <==> !NextSlotOccupied(es)
    ensures r.Ok? ==> |r.value| == |es| + 1 && r.value[..|es|] == es
    ensures r.Ok? ==> r.value[|es|].val == v
    ensures r.Ok? ==> r.value[|es|].key.IntKey? && r.value[|es|].key !in KeysOf(es)
    ensures r.Ok? ==> ValuesOf(r.value) == ValuesOf(es) + [v]
    ensures r.Ok? && WellFormed(es) ==> WellFormed(r.value)
  {
    match NextIndex(es)
    case Err(e) => Err(e)
    case Ok(n) =>
      var r := es + [Entry(IntKey(n), v)];
      assert ValuesOf(r) == ValuesOf(es) + [v];
      Ok(r)
  }

  /** A PHP list literal `[v0, v1, ...]`: the values under keys 0, 1, .... */
  function List(vs: seq<Value>): (r: seq<Entry>)
    ensures ValuesOf(r) == vs
    ensures forall i :: 0 <= i < |vs| ==> r[i].key == IntKey(i)
  {
    seq(|vs|, i requires 0 <= i < |vs| => Entry(IntKey(i), vs[i]))
  }

  /** Pushing onto an array leaves every key it already had with its value. */
  lemma PushKeepsEntries(es: seq<Entry>, v: Value, k: Key)
    requires Push(es, v).Ok?
    requires k in KeysOf(es)
    ensures Get(Push(es, v).value, k) == Get(es, k)
  {
    var r := Push(es, v).value;
    assert forall j :: 0 <= j < |es| ==> r[j] == es[j];
  }

  /** The pushed value is found under the index the push chose. */
  lemma PushThenGet(es: seq<Entry>, v: Value)
    requires Push(es, v).Ok?
    ensures var r := Push(es, v).value; Get(r, r[|es|].key) == Some(v)
  {
    var r := Push(es, v).value;
    var k := r[|es|].key;
    assert forall j :: 0 <= j < |es| ==> r[j].key == KeysOf(es)[j] != k;
  }
}
