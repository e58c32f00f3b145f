/**
 * PHP values as the client's configuration sees them: scalars, ordered arrays
 * and plain objects, together with PHP's truthiness, loose comparison against
 * a word, and key lookup with `isset` semantics.
 */
module PhpValues {
  import opened Results

  /** An array key. PHP turns decimal-integer strings into integer keys, so
      a StrKey stands for a key that is not such a string. */
  datatype Key = IntKey(i: int) | StrKey(s: string)

  /** A PHP value. Floats and resources are not modelled. An object is a
      plain object (no ArrayAccess, no __toString) identified by its handle
      and carrying the property table that a cast to array produces. */
  datatype Value =
    | Null
    | Bool(b: bool)
    | Int(i: int)
    | Str(s: string)
    | Arr(entries: seq<Entry>)
    | Obj(handle: nat, props: seq<Entry>)

  /** One key/value slot of an array, in insertion order. */
  datatype Entry = Entry(key: Key, val: Value)

  /** PHP arrays never hold the same key twice. */
  predicate UniqueKeys(a: seq<Entry>)
  {
    forall i, j :: 0 <= i < j < |a| ==> a[i].key != a[j].key
  }

  /** `(bool) $v`: null, false, 0, "", "0" and the empty array are falsy;
      every object is truthy. */
  predicate Truthy(v: Value)
  {
    match v
    case Null => false
    case Bool(b) => b
    case Int(i) => i != 0
    case Str(s) => s != "" && s != "0"
    case Arr(entries) => |entries| > 0
    case Obj(_, _) => true
  }

  /** A non-empty word of lower-case ASCII letters; such a string is never
      numeric, which fixes how PHP compares it loosely. */
  predicate IsWord(w: string)
  {
    |w| > 0 && forall i :: 0 <= i < |w| ==> 'a' <= w[i] <= 'z'
  }

  /** PHP 8 loose equality `$v == $w` against a non-numeric word `w`:
      strings compare byte-wise, booleans compare with the word's truthiness,
      null compares as the empty string, and integers, arrays and plain
      objects never equal a non-numeric string. */
  predicate LooseEqualsWord(v: Value, w: string)
    requires IsWord(w)
  {
    match v
    case Str(s) => s == w
    case Bool(b) => b == Truthy(Str(w))
    case Null => w == ""
    case Int(_) => false
    case Arr(_) => false
    case Obj(_, _) => false
  }

  /** `in_array($v, $words)` with its default loose comparison. */
  predicate LooselyIn(v: Value, words: seq<string>)
    requires forall i :: 0 <= i < |words| ==> IsWord(words[i])
  {
    exists i :: 0 <= i < |words| && LooseEqualsWord(v, words[i])
  }

  lemma LooseEqualsWordExactly(v: Value, w: string)
    requires IsWord(w)
    ensures LooseEqualsWord(v, w) <==> v == Str(w) || v == Bool(true)
  {
    assert 'a' <= w[0] <= 'z';
    assert w != "0";
  }

  /** The position of key `k` in `a`, if it is there. */
  function KeyIndex(a: seq<Entry>, k: Key): (r: Option<nat>)
    ensures r.Some? ==> r.value < |a| && a[r.value].key == k
    ensures r.Some? ==> forall j :: 0 <= j < r.value ==> a[j].key != k
    ensures r.None? <==> forall j :: 0 <= j < |a| ==> a[j].key != k
  {
    if |a| == 0 then None
    else if a[0].key == k then Some(0)
    else match KeyIndex(a[1..], k)
      case None => None
      case Some(j) => Some(j + 1)
  }

  /** `$a[$k]` when the key exists, None when it does not. */
  function Lookup(a: seq<Entry>, k: Key): (r: Option<Value>)
    ensures r.Some? <==> exists j :: 0 <= j < |a| && a[j].key == k
    ensures forall j :: 0 <= j < |a| && a[j].key == k && UniqueKeys(a) ==> r == Some(a[j].val)
  {
    match KeyIndex(a, k)
    case None => None
    case Some(j) => Some(a[j].val)
  }

  /** `isset($a[$k])`: the key is present and its value is not null. */
  predicate Isset(a: seq<Entry>, k: Key)
  {
    Lookup(a, k).Some? && Lookup(a, k).value != Null
  }

  /** The array a PHP `convert_to_array` produces when array_merge_recursive
      merges into the value `v`: an array stays as it is, an object yields its
      properties, null yields `[null]` and any other scalar `[v]`. */
  function MergeTarget(v: Value): seq<Entry>
  {
    match v
    case Arr(entries) => entries
    case Obj(_, props) => props
    case _ => [Entry(IntKey(0), v)]
  }
}
