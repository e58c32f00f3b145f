/**
 * PHP's `array_merge` and `array_merge_recursive` on ordered arrays, as the
 * Zend engine implements them, and the lookup facts that the client's
 * configuration handling rests on.
 */
module PhpArrays {
  import opened Results
  import opened PhpValues

  // ---------------------------------------------------------------------------
  // Positions and single-slot updates
  // ---------------------------------------------------------------------------

  /** The index `$a[] = $v` takes: one past the largest integer key, or 0
      when there is no non-negative integer key. */
  function NextFree(a: seq<Entry>): (r: nat)
    ensures forall j :: 0 <= j < |a| && a[j].key.IntKey? ==> a[j].key.i < r
    ensures r > 0 ==> exists j :: 0 <= j < |a| && a[j].key == IntKey(r - 1)
  {
    if |a| == 0 then 0
    else
      var rest := NextFree(a[1..]);
      assert rest > 0 ==> exists j :: 0 <= j < |a| && a[j].key == IntKey(rest - 1) by {
        if rest > 0 {
          var j :| 0 <= j < |a[1..]| && a[1..][j].key == IntKey(rest - 1);
          assert a[j + 1].key == IntKey(rest - 1);
        }
      }
      match a[0].key
      case IntKey(i) => if i + 1 > rest then i + 1 else rest
      case StrKey(_) => rest
  }

  /** `zend_hash_update`: overwrite the value of key `k` where it stands, or
      append the pair when the key is new. */
  function Put(a: seq<Entry>, k: Key, v: Value): seq<Entry>
  {
    match KeyIndex(a, k)
    case Some(j) => a[j := Entry(k, v)]
    case None => a + [Entry(k, v)]
  }

  /** `$a[] = $v`. */
  function Append(a: seq<Entry>, v: Value): seq<Entry>
  {
    a + [Entry(IntKey(NextFree(a)), v)]
  }

  lemma KeyIndexOfFirst(a: seq<Entry>, k: Key, i: nat)
    requires i < |a| && a[i].key == k
    requires forall j :: 0 <= j < i ==> a[j].key != k
    ensures KeyIndex(a, k) == Some(i)
  {
  }

  lemma KeyIndexSameKeys(a: seq<Entry>, b: seq<Entry>, k: Key)
    requires |a| == |b|
    requires forall j :: 0 <= j < |a| ==> a[j].key == b[j].key
    ensures KeyIndex(a, k) == KeyIndex(b, k)
  {
    match KeyIndex(a, k)
    case Some(i) => KeyIndexOfFirst(b, k, i);
    case None =>
  }

  lemma KeyIndexSnoc(a: seq<Entry>, e: Entry, k: Key)
    ensures KeyIndex(a + [e], k) ==
      match KeyIndex(a, k)
      case Some(i) => Some(i)
      case None => if e.key == k then Some(|a|) else None
  {
    var b := a + [e];
    match KeyIndex(a, k)
    case Some(i) => KeyIndexOfFirst(b, k, i);
    case None =>
      if e.key == k {
        KeyIndexOfFirst(b, k, |a|);
      }
  }

  lemma LookupSnoc(a: seq<Entry>, e: Entry, k: Key)
    ensures Lookup(a + [e], k) ==
      if Lookup(a, k).Some? then Lookup(a, k)
      else if e.key == k then Some(e.val) else None
  {
    KeyIndexSnoc(a, e, k);
    match KeyIndex(a, k)
    case Some(i) => assert (a + [e])[i] == a[i];
    case None =>
  }

  lemma LookupCons(a: seq<Entry>, k: Key)
    requires |a| > 0
    ensures Lookup(a, k) == if a[0].key == k then Some(a[0].val) else Lookup(a[1..], k)
  {
  }

  /** Overwriting or adding key `k` makes it hold `v` and leaves every other
      key as it was; no key is duplicated. */
  lemma PutLookup(a: seq<Entry>, k: Key, v: Value, k': Key)
    ensures Lookup(Put(a, k, v), k') == if k' == k then Some(v) else Lookup(a, k')
  {
    match KeyIndex(a, k)
    case Some(j) =>
      var b := a[j := Entry(k, v)];
      KeyIndexSameKeys(a, b, k');
    case None =>
      LookupSnoc(a, Entry(k, v), k');
  }

  lemma PutUnique(a: seq<Entry>, k: Key, v: Value)
    requires UniqueKeys(a)
    ensures UniqueKeys(Put(a, k, v))
  {
  }

  /** `$a[] = $v` stores `v` under a fresh integer key and changes nothing else. */
  lemma AppendLookup(a: seq<Entry>, v: Value, k: Key)
    ensures Lookup(Append(a, v), k) == if k == IntKey(NextFree(a)) then Some(v) else Lookup(a, k)
  {
    LookupSnoc(a, Entry(IntKey(NextFree(a)), v), k);
  }

  lemma AppendUnique(a: seq<Entry>, v: Value)
    requires UniqueKeys(a)
    ensures UniqueKeys(Append(a, v))
  {
  }

  // ---------------------------------------------------------------------------
  // The copy of the first argument
  // ---------------------------------------------------------------------------

  /** How many entries of `a` have integer keys. */
  function IntKeyCount(a: seq<Entry>): nat
  {
    if |a| == 0 then 0 else (if a[0].key.IntKey? then 1 else 0) + IntKeyCount(a[1..])
  }

  /** The copy that array_merge and array_merge_recursive make of their first
      argument: values and string keys stay in place, integer keys are
      renumbered n, n+1, ... in order of appearance. */
  function RenumberFrom(a: seq<Entry>, n: int): (r: seq<Entry>)
    ensures |r| == |a|
    ensures forall i :: 0 <= i < |a| ==> r[i].val == a[i].val
    ensures forall i :: 0 <= i < |a| && a[i].key.StrKey? ==> r[i].key == a[i].key
    ensures forall i :: 0 <= i < |a| && a[i].key.IntKey? ==> r[i].key == IntKey(n + IntKeyCount(a[..i]))
    ensures forall i :: 0 <= i < |r| && r[i].key.IntKey? ==> n <= r[i].key.i
    ensures forall i, j :: 0 <= i < j < |r| && r[i].key.IntKey? && r[j].key.IntKey? ==> r[i].key.i < r[j].key.i
  {
    if |a| == 0 then []
    else
      assert forall i :: 1 <= i <= |a| ==> a[..i][1..] == a[1..][..i - 1];
      match a[0].key
      case IntKey(_) => [Entry(IntKey(n), a[0].val)] + RenumberFrom(a[1..], n + 1)
      case StrKey(_) => [a[0]] + RenumberFrom(a[1..], n)
  }

  function Renumber(a: seq<Entry>): seq<Entry>
  {
    RenumberFrom(a, 0)
  }

  /** Renumbering never changes what a string key holds. */
  lemma RenumberStrLookup(a: seq<Entry>, k: string)
    ensures Lookup(Renumber(a), StrKey(k)) == Lookup(a, StrKey(k))
  {
    var r := Renumber(a);
    match KeyIndex(a, StrKey(k))
    case Some(i) => KeyIndexOfFirst(r, StrKey(k), i);
    case None =>
  }

  /** The copy of an array is again an array: no key appears twice. */
  lemma RenumberUnique(a: seq<Entry>)
    requires UniqueKeys(a)
    ensures UniqueKeys(Renumber(a))
  {
  }

  // ---------------------------------------------------------------------------
  // array_merge
  // ---------------------------------------------------------------------------

  /** One step of `php_array_merge`: a string key overwrites in place or is
      added, an integer key is appended under the next free index. */
  function MergeStep(d: seq<Entry>, e: Entry): seq<Entry>
  {
    match e.key
    case StrKey(_) => Put(d, e.key, e.val)
    case IntKey(_) => Append(d, e.val)
  }

  function MergeInto(d: seq<Entry>, s: seq<Entry>): seq<Entry>
    decreases |s|
  {
    if |s| == 0 then d else MergeInto(MergeStep(d, s[0]), s[1..])
  }

  /** `array_merge($a, $b)`. */
  function ArrayMerge(a: seq<Entry>, b: seq<Entry>): seq<Entry>
  {
    MergeInto(Renumber(a), b)
  }

  lemma MergeStepStrLookup(d: seq<Entry>, e: Entry, k: string)
    ensures Lookup(MergeStep(d, e), StrKey(k)) ==
      if e.key == StrKey(k) then Some(e.val) else Lookup(d, StrKey(k))
  {
    match e.key
    case StrKey(_) => PutLookup(d, e.key, e.val, StrKey(k));
    case IntKey(_) => AppendLookup(d, e.val, StrKey(k));
  }

  lemma {:induction false} MergeIntoStrLookup(d: seq<Entry>, s: seq<Entry>, k: string)
    requires UniqueKeys(s)
    ensures Lookup(MergeInto(d, s), StrKey(k)) ==
      if Lookup(s, StrKey(k)).Some? then Lookup(s, StrKey(k)) else Lookup(d, StrKey(k))
    decreases |s|
  {
    if |s| > 0 {
      assert UniqueKeys(s[1..]);
      MergeIntoStrLookup(MergeStep(d, s[0]), s[1..], k);
      MergeStepStrLookup(d, s[0], k);
      LookupCons(s, StrKey(k));
      if s[0].key == StrKey(k) {
        assert forall j :: 0 <= j < |s[1..]| ==> s[1..][j].key != StrKey(k) by {
          forall j | 0 <= j < |s[1..]| ensures s[1..][j].key != StrKey(k) {
            assert s[1..][j] == s[j + 1];
          }
        }
      }
    }
  }

  /** array_merge: a string key of the second array wins; a string key only
      the first array has keeps its value. */
  lemma ArrayMergeStrLookup(a: seq<Entry>, b: seq<Entry>, k: string)
    requires UniqueKeys(b)
    ensures Lookup(ArrayMerge(a, b), StrKey(k)) ==
      if Lookup(b, StrKey(k)).Some? then Lookup(b, StrKey(k)) else Lookup(a, StrKey(k))
  {
    MergeIntoStrLookup(Renumber(a), b, k);
    RenumberStrLookup(a, k);
  }

  lemma {:induction false} MergeIntoUnique(d: seq<Entry>, s: seq<Entry>)
    requires UniqueKeys(d)
    ensures UniqueKeys(MergeInto(d, s))
    decreases |s|
  {
    if |s| > 0 {
      var d' := MergeStep(d, s[0]);
      match s[0].key {
        case StrKey(_) => PutUnique(d, s[0].key, s[0].val);
        case IntKey(_) => AppendUnique(d, s[0].val);
      }
      MergeIntoUnique(d', s[1..]);
    }
  }

  /** The result of array_merge is a well-formed array. */
  lemma ArrayMergeUnique(a: seq<Entry>, b: seq<Entry>)
    requires UniqueKeys(a)
    ensures UniqueKeys(ArrayMerge(a, b))
  {
    RenumberUnique(a);
    MergeIntoUnique(Renumber(a), b);
  }

  // ---------------------------------------------------------------------------
  // array_merge_recursive
  // ---------------------------------------------------------------------------

  /** The entries an array or object contributes when it is merged in: an
      object is cast to its property table first. */
  function Members(v: Value): seq<Entry>
    requires v.Arr? || v.Obj?
  {
    if v.Arr? then v.entries else v.props
  }

  /** `php_array_merge_recursive(dest, src)` from position `i` of `src` on.
      Unlike the outer copy, `d` is not renumbered here. */
  function MergeRecInto(d: seq<Entry>, src: Value, i: nat): seq<Entry>
    requires src.Arr? || src.Obj?
    requires i <= |Members(src)|
    decreases src, 0, |Members(src)| - i
  {
    if i == |Members(src)| then d
    else MergeRecInto(MergeRecStep(d, src, i), src, i + 1)
  }

  /** One entry of `php_array_merge_recursive`: an integer key is appended;
      a new string key is added; a string key already in `d` has its two
      values merged by MergeValues. */
  function MergeRecStep(d: seq<Entry>, src: Value, i: nat): seq<Entry>
    requires src.Arr? || src.Obj?
    requires i < |Members(src)|
    decreases src, 0, 0
  {
    var e := if src.Arr? then src.entries[i] else src.props[i];
    match e.key
    case IntKey(_) => Append(d, e.val)
    case StrKey(_) =>
      match KeyIndex(d, e.key)
      case Some(j) => d[j := Entry(e.key, MergeValues(d[j].val, e.val))]
      case None => d + [e]
  }

  /** What array_merge_recursive stores under a string key both arrays
      have: the existing value is cast to an array (null to `[null]`), then
      an array or object source is merged into it recursively and any other
      source value is appended to it. */
  function MergeValues(dv: Value, sv: Value): Value
    decreases sv, 1, 0
  {
    var target := MergeTarget(dv);
    match sv
    case Arr(_) => Arr(MergeRecInto(target, sv, 0))
    case Obj(_, _) => Arr(MergeRecInto(target, sv, 0))
    case _ => Arr(Append(target, sv))
  }

  /** `array_merge_recursive($a, $b)`. */
  function ArrayMergeRecursive(a: seq<Entry>, b: seq<Entry>): seq<Entry>
  {
    MergeRecInto(Renumber(a), Arr(b), 0)
  }

  /** The value array_merge_recursive leaves under a string key, given what
      the destination and the source hold there. */
  function MergedSlot(dest: Option<Value>, src: Option<Value>): Option<Value>
  {
    match src
    case None => dest
    case Some(sv) =>
      match dest
      case None => Some(sv)
      case Some(dv) => Some(MergeValues(dv, sv))
  }

  lemma MergeRecStepStrLookup(d: seq<Entry>, src: Value, i: nat, k: string)
    requires src.Arr? || src.Obj?
    requires i < |Members(src)|
    ensures Lookup(MergeRecStep(d, src, i), StrKey(k)) ==
      if Members(src)[i].key == StrKey(k) then MergedSlot(Lookup(d, StrKey(k)), Some(Members(src)[i].val))
      else Lookup(d, StrKey(k))
  {
    var e := Members(src)[i];
    match e.key
    case IntKey(_) => AppendLookup(d, e.val, StrKey(k));
    case StrKey(_) =>
      match KeyIndex(d, e.key)
      case Some(j) =>
        KeyIndexSameKeys(d, d[j := Entry(e.key, MergeValues(d[j].val, e.val))], StrKey(k));
      case None =>
        LookupSnoc(d, e, StrKey(k));
  }

  lemma {:induction false} MergeRecIntoStrLookup(d: seq<Entry>, src: Value, i: nat, k: string)
    requires src.Arr? || src.Obj?
    requires i <= |Members(src)|
    requires UniqueKeys(Members(src))
    ensures Lookup(MergeRecInto(d, src, i), StrKey(k)) ==
      MergedSlot(Lookup(d, StrKey(k)), Lookup(Members(src)[i..], StrKey(k)))
    decreases |Members(src)| - i
  {
    var m := Members(src);
    if i < |m| {
      MergeRecIntoStrLookup(MergeRecStep(d, src, i), src, i + 1, k);
      MergeRecStepStrLookup(d, src, i, k);
      LookupCons(m[i..], StrKey(k));
      var rest := m[i + 1..];
      assert m[i..][1..] == rest;
      if m[i].key == StrKey(k) {
        assert forall j :: 0 <= j < |rest| ==> rest[j].key != StrKey(k) by {
          forall j | 0 <= j < |rest| ensures rest[j].key != StrKey(k) {
            assert rest[j] == m[i + 1 + j];
          }
        }
      }
    }
  }

  /** array_merge_recursive under a string key: a key only one side has
      keeps that side's value, and a key both sides have holds the two values
      merged by MergeValues. */
  lemma ArrayMergeRecursiveStrLookup(a: seq<Entry>, b: seq<Entry>, k: string)
    requires UniqueKeys(b)
    ensures Lookup(ArrayMergeRecursive(a, b), StrKey(k)) ==
      MergedSlot(Lookup(a, StrKey(k)), Lookup(b, StrKey(k)))
  {
    MergeRecIntoStrLookup(Renumber(a), Arr(b), 0, k);
    assert b[0..] == b;
    RenumberStrLookup(a, k);
  }

  /** Merging an array into an array value, key by key: the same law one
      level down. */
  lemma MergeValuesArraysStrLookup(o: seq<Entry>, s: seq<Entry>, k: string)
    requires UniqueKeys(s)
    ensures MergeValues(Arr(o), Arr(s)).Arr?
    ensures Lookup(MergeValues(Arr(o), Arr(s)).entries, StrKey(k)) ==
      MergedSlot(Lookup(o, StrKey(k)), Lookup(s, StrKey(k)))
  {
    MergeRecIntoStrLookup(o, Arr(s), 0, k);
    assert s[0..] == s;
  }

  /** Merging in a string-keyed entry overwrites or adds that key only, so
      no integer key of the destination moves or changes. */
  lemma MergeRecStepIntLookup(d: seq<Entry>, src: Value, i: nat, n: int)
    requires src.Arr? || src.Obj?
    requires i < |Members(src)|
    requires Members(src)[i].key.StrKey?
    ensures Lookup(MergeRecStep(d, src, i), IntKey(n)) == Lookup(d, IntKey(n))
  {
    var e := Members(src)[i];
    match KeyIndex(d, e.key)
    case Some(j) =>
      PutLookup(d, e.key, MergeValues(d[j].val, e.val), IntKey(n));
    case None =>
      PutLookup(d, e.key, e.val, IntKey(n));
  }

  lemma {:induction false} MergeRecIntoIntLookup(d: seq<Entry>, src: Value, i: nat, n: int)
    requires src.Arr? || src.Obj?
    requires i <= |Members(src)|
    requires forall j :: i <= j < |Members(src)| ==> Members(src)[j].key.StrKey?
    ensures Lookup(MergeRecInto(d, src, i), IntKey(n)) == Lookup(d, IntKey(n))
    decreases |Members(src)| - i
  {
    if i < |Members(src)| {
      MergeRecStepIntLookup(d, src, i, n);
      MergeRecIntoIntLookup(MergeRecStep(d, src, i), src, i + 1, n);
    }
  }

  /** Unlike the outer copy, the nested merge does not renumber the
      destination: merging a string-keyed array into an array keeps every
      integer key of the destination in place with its value. */
  lemma MergeValuesArraysIntLookup(o: seq<Entry>, s: seq<Entry>, n: int)
    requires forall j :: 0 <= j < |s| ==> s[j].key.StrKey?
    ensures MergeValues(Arr(o), Arr(s)).Arr?
    ensures Lookup(MergeValues(Arr(o), Arr(s)).entries, IntKey(n)) == Lookup(o, IntKey(n))
  {
    MergeRecIntoIntLookup(o, Arr(s), 0, n);
  }

  /** Two scalars under the same string key become the list `[dv, sv]`;
      null counts as a scalar here. */
  lemma MergeValuesScalars(dv: Value, sv: Value)
    requires !dv.Arr? && !dv.Obj? && !sv.Arr? && !sv.Obj?
    ensures MergeValues(dv, sv) == Arr([Entry(IntKey(0), dv), Entry(IntKey(1), sv)])
  {
    assert NextFree([Entry(IntKey(0), dv)]) == 1;
  }

  /** A scalar (or null) destination under an array source becomes
      `[0 => dv]` followed by the source's entries. */
  lemma MergeValuesScalarIntoSingleton(dv: Value, k: string, sv: Value)
    requires !dv.Arr? && !dv.Obj?
    ensures MergeValues(dv, Arr([Entry(StrKey(k), sv)])) ==
      Arr([Entry(IntKey(0), dv), Entry(StrKey(k), sv)])
  {
    var src := Arr([Entry(StrKey(k), sv)]);
    var d := [Entry(IntKey(0), dv)];
    assert KeyIndex(d, StrKey(k)) == None;
    var d1 := MergeRecStep(d, src, 0);
    assert d1 == d + [Entry(StrKey(k), sv)];
    assert MergeRecInto(d1, src, 1) == d1;
    assert MergeRecInto(d, src, 0) == d1;
  }

  lemma MergeRecStepUnique(d: seq<Entry>, src: Value, i: nat)
    requires src.Arr? || src.Obj?
    requires i < |Members(src)|
    requires UniqueKeys(d)
    ensures UniqueKeys(MergeRecStep(d, src, i))
  {
    var e := Members(src)[i];
    match e.key
    case IntKey(_) => AppendUnique(d, e.val);
    case StrKey(_) =>
  }

  lemma {:induction false} MergeRecIntoUnique(d: seq<Entry>, src: Value, i: nat)
    requires src.Arr? || src.Obj?
    requires i <= |Members(src)|
    requires UniqueKeys(d)
    ensures UniqueKeys(MergeRecInto(d, src, i))
    decreases |Members(src)| - i
  {
    if i < |Members(src)| {
      MergeRecStepUnique(d, src, i);
      MergeRecIntoUnique(MergeRecStep(d, src, i), src, i + 1);
    }
  }

  /** The result of array_merge_recursive is a well-formed array. */
  lemma ArrayMergeRecursiveUnique(a: seq<Entry>, b: seq<Entry>)
    requires UniqueKeys(a)
    ensures UniqueKeys(ArrayMergeRecursive(a, b))
  {
    RenumberUnique(a);
    MergeRecIntoUnique(Renumber(a), Arr(b), 0);
  }
}
