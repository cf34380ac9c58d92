/**
 * The results of the older, purely functional engine (internal/Validation.kt):
 * `Valid`, `NoResult` (nothing was checked) and `Invalid` with a map from
 * data paths to messages, and the two ways results are transformed,
 * `combineWith` and `mapError`.
 *
 * Kotlin's maps here are insertion-ordered (`mapOf`, `groupBy`, `mapKeys`
 * all build linked hash maps), so an error map is a sequence of key/messages
 * pairs; `Put` is `LinkedHashMap.put` (a present key keeps its place and
 * gets the new list) and `Add` is one step of `groupBy` followed by
 * `flatten` (a present key gets the new messages appended).
 */
module LegacyResults {
  import opened Values

  type ErrorMap = seq<(string, seq<string>)>

  datatype LegacyResult = Valid(value: Value) | Invalid(errors: ErrorMap) | NoResult(value: Value)

  // ---------------------------------------------------------------------
  // Insertion-ordered maps
  // ---------------------------------------------------------------------

  /** `m[k] ?: emptyList()`. */
  function Lookup(m: ErrorMap, k: string): seq<string>
  {
    var i := FindFirst(m, k);
    if i < |m| then m[i].1 else []
  }

  predicate DistinctKeys(m: ErrorMap)
  {
    forall i, j :: 0 <= i < j < |m| ==> m[i].0 != m[j].0
  }

  /** `put(k, v)`: a present key keeps its place and its old list is dropped. */
  function Put(m: ErrorMap, k: string, v: seq<string>): (r: ErrorMap)
    ensures DistinctKeys(m) ==> DistinctKeys(r)
  {
    var i := FindFirst(m, k);
    if i < |m| then m[i := (k, v)] else m + [(k, v)]
  }

  /** One element of `groupBy` + `flatten`: a present key gets `v` appended to its list. */
  function Add(m: ErrorMap, k: string, v: seq<string>): (r: ErrorMap)
    ensures DistinctKeys(m) ==> DistinctKeys(r)
  {
    var i := FindFirst(m, k);
    if i < |m| then m[i := (k, m[i].1 + v)] else m + [(k, v)]
  }

  function AddAll(acc: ErrorMap, pairs: ErrorMap): ErrorMap
    decreases |pairs|
  {
    if |pairs| == 0 then acc else AddAll(Add(acc, pairs[0].0, pairs[0].1), pairs[1..])
  }

  /** `groupBy({ it.first }) { it.second }.mapValues { flatten }` of a list of pairs. */
  function GroupBy(pairs: ErrorMap): ErrorMap
  {
    AddAll([], pairs)
  }

  function PutAll(acc: ErrorMap, m: ErrorMap, f: string -> string): ErrorMap
    decreases |m|
  {
    if |m| == 0 then acc else PutAll(Put(acc, f(m[0].0), m[0].1), m[1..], f)
  }

  /** `mapKeys`: every entry is put under its new key in order; on a clash the later list wins. */
  function MapKeys(m: ErrorMap, f: string -> string): ErrorMap
  {
    PutAll([], m, f)
  }

  /** Every message listed under key `k`, in order, whether or not the keys are distinct. */
  function ValuesOf(pairs: ErrorMap, k: string): seq<string>
    decreases |pairs|
  {
    if |pairs| == 0 then []
    else (if pairs[0].0 == k then pairs[0].1 else []) + ValuesOf(pairs[1..], k)
  }

  /** The number of messages in a map. */
  function Count(m: ErrorMap): nat
    decreases |m|
  {
    if |m| == 0 then 0 else |m[0].1| + Count(m[1..])
  }

  // ---------------------------------------------------------------------
  // combineWith and mapError
  // ---------------------------------------------------------------------

  /** The messages a result carries: none unless it is `Invalid`. */
  function Messages(r: LegacyResult): nat
  {
    if r.Invalid? then Count(r.errors) else 0
  }

  /** An `Invalid` result has one entry per key. */
  predicate WellKeyed(r: LegacyResult)
  {
    r.Invalid? ==> DistinctKeys(r.errors)
  }

  /**
   * `combineWith`: `NoResult` on either side gives the other side; in OR
   * mode a `Valid` on either side gives a valid result, in AND mode an
   * `Invalid` on either side gives an invalid one; two `Invalid` results
   * have their maps merged by key.
   */
  function Combine(a: LegacyResult, b: LegacyResult, or: bool): (r: LegacyResult)
    ensures a.NoResult? ==> r == b
    ensures b.NoResult? && !a.NoResult? ==> r == a
    ensures r.NoResult? <==> a.NoResult? && b.NoResult?
    ensures or ==> (r.Valid? <==> a.Valid? || b.Valid?)
    ensures !or ==> (r.Invalid? <==> a.Invalid? || b.Invalid?)
    ensures WellKeyed(a) && WellKeyed(b) ==> WellKeyed(r)
  {
    match a
    case NoResult(_) => b
    case Valid(_) => if b.NoResult? || or then a else b
    case Invalid(errors) =>
      match b
      case NoResult(_) => a
      case Valid(_) => if or then b else a
      case Invalid(other) =>
        GroupByDistinct([], errors + other);
        Invalid(GroupBy(errors + other))
  }

  /** `mapError`: only the keys of an `Invalid` result change. */
  function MapError(r: LegacyResult, f: string -> string): (s: LegacyResult)
    ensures r.Valid? ==> s == r
    ensures r.NoResult? ==> s == r
    ensures r.Invalid? <==> s.Invalid?
    ensures WellKeyed(s)
  {
    match r
    case Invalid(errors) =>
      PutAllDistinct([], errors, f);
      Invalid(MapKeys(errors, f))
    case _ => r
  }

  /** `.map { aValue }`: a valid or empty result is re-attached to the parent value. */
  function Reattach(r: LegacyResult, x: Value): (s: LegacyResult)
    ensures s.Valid? == r.Valid? && s.Invalid? == r.Invalid? && s.NoResult? == r.NoResult?
    ensures r.Invalid? ==> s == r
  {
    match r
    case Valid(_) => Valid(x)
    case NoResult(_) => NoResult(x)
    case Invalid(_) => r
  }

  // ---------------------------------------------------------------------
  // Laws
  // ---------------------------------------------------------------------

  lemma {:induction false} GroupByDistinct(acc: ErrorMap, pairs: ErrorMap)
    requires DistinctKeys(acc)
    ensures DistinctKeys(AddAll(acc, pairs))
    decreases |pairs|
  {
    if |pairs| > 0 {
      GroupByDistinct(Add(acc, pairs[0].0, pairs[0].1), pairs[1..]);
    }
  }

  lemma {:induction false} PutAllDistinct(acc: ErrorMap, m: ErrorMap, f: string -> string)
    requires DistinctKeys(acc)
    ensures DistinctKeys(PutAll(acc, m, f))
    decreases |m|
  {
    if |m| > 0 {
      PutAllDistinct(Put(acc, f(m[0].0), m[0].1), m[1..], f);
    }
  }

  /** Adding messages under `k` extends exactly the list of `k`. */
  lemma AddLookup(m: ErrorMap, k: string, v: seq<string>, q: string)
    ensures Lookup(Add(m, k, v), q) == Lookup(m, q) + (if q == k then v else [])
  {
    var i := FindFirst(m, k);
    if i < |m| {
      var r := m[i := (k, m[i].1 + v)];
      if q != k {
        assert FindFirst(r, q) == FindFirst(m, q) by { FindUnchanged(m, i, k, m[i].1 + v, q); }
      } else {
        assert FindFirst(r, q) == i by { FindAt(r, i, q); }
      }
    } else {
      FindAppended(m, k, v, q);
    }
  }

  lemma {:induction false} FindAt(m: ErrorMap, i: nat, q: string)
    requires i < |m| && m[i].0 == q && forall j :: 0 <= j < i ==> m[j].0 != q
    ensures FindFirst(m, q) == i
  {
  }

  lemma FindUnchanged(m: ErrorMap, i: nat, k: string, v: seq<string>, q: string)
    requires i < |m| && m[i].0 == k && q != k
    ensures FindFirst(m[i := (k, v)], q) == FindFirst(m, q)
  {
    var r := m[i := (k, v)];
    var f := FindFirst(m, q);
    if f < |m| {
      FindAt(r, f, q);
    } else {
      assert forall j :: 0 <= j < |r| ==> r[j].0 != q by {
        forall j | 0 <= j < |r| ensures r[j].0 != q {
          if j != i { assert r[j] == m[j]; }
        }
      }
      FindAbsent(r, q);
    }
  }

  lemma {:induction false} FindAbsent(m: ErrorMap, q: string)
    requires forall j :: 0 <= j < |m| ==> m[j].0 != q
    ensures FindFirst(m, q) == |m|
  {
  }

  lemma FindAppended(m: ErrorMap, k: string, v: seq<string>, q: string)
    requires FindFirst(m, k) == |m|
    ensures Lookup(m + [(k, v)], q) == Lookup(m, q) + (if q == k then v else [])
  {
    var r := m + [(k, v)];
    var f := FindFirst(m, q);
    if f < |m| {
      FindAt(r, f, q);
    } else if q == k {
      FindAt(r, |m|, q);
    } else {
      assert forall j :: 0 <= j < |r| ==> r[j].0 != q by {
        forall j | 0 <= j < |r| ensures r[j].0 != q {
          if j < |m| { assert r[j] == m[j]; }
        }
      }
      FindAbsent(r, q);
    }
  }

  lemma {:induction false} AddAllLookup(acc: ErrorMap, pairs: ErrorMap, q: string)
    ensures Lookup(AddAll(acc, pairs), q) == Lookup(acc, q) + ValuesOf(pairs, q)
    decreases |pairs|
  {
    if |pairs| > 0 {
      var k, v := pairs[0].0, pairs[0].1;
      var here := if q == k then v else [];
      var next := Add(acc, k, v);
      assert AddAll(acc, pairs) == AddAll(next, pairs[1..]);
      assert ValuesOf(pairs, q) == here + ValuesOf(pairs[1..], q);
      assert Lookup(next, q) == Lookup(acc, q) + here by {
        AddLookup(acc, k, v, q);
      }
      AddAllLookup(next, pairs[1..], q);
      AppendRegroup(Lookup(acc, q), here, Lookup(next, q), ValuesOf(pairs[1..], q), ValuesOf(pairs, q));
    }
  }

  lemma {:induction false} ValuesOfConcat(a: ErrorMap, b: ErrorMap, q: string)
    ensures ValuesOf(a + b, q) == ValuesOf(a, q) + ValuesOf(b, q)
    decreases |a|
  {
    if |a| > 0 {
      assert (a + b)[1..] == a[1..] + b;
      ValuesOfConcat(a[1..], b, q);
    } else {
      assert a + b == b;
    }
  }

  lemma {:induction false} ValuesOfDistinct(m: ErrorMap, q: string)
    requires DistinctKeys(m)
    ensures ValuesOf(m, q) == Lookup(m, q)
    decreases |m|
  {
    if |m| > 0 {
      ValuesOfDistinct(m[1..], q);
      if m[0].0 != q {
        var f := FindFirst(m[1..], q);
        if f < |m| - 1 {
          FindAt(m, f + 1, q);
        } else {
          FindAbsent(m, q);
        }
      }
    }
  }

  /**
   * Two invalid results merge by key: the list under each key is the left
   * result's list followed by the right result's.
   */
  lemma MergeByKey(a: LegacyResult, b: LegacyResult, or: bool, q: string)
    requires a.Invalid? && b.Invalid? && WellKeyed(a) && WellKeyed(b)
    ensures Combine(a, b, or).Invalid?
    ensures Lookup(Combine(a, b, or).errors, q) == Lookup(a.errors, q) + Lookup(b.errors, q)
  {
    AddAllLookup([], a.errors + b.errors, q);
    ValuesOfConcat(a.errors, b.errors, q);
    ValuesOfDistinct(a.errors, q);
    ValuesOfDistinct(b.errors, q);
  }

  lemma CountUpdate(m: ErrorMap, i: nat, e: (string, seq<string>))
    requires i < |m|
    ensures Count(m[i := e]) == Count(m) - |m[i].1| + |e.1|
    decreases |m|
  {
    if i > 0 {
      assert m[i := e][1..] == m[1..][i - 1 := e];
      CountUpdate(m[1..], i - 1, e);
    }
  }

  lemma {:induction false} CountConcat(a: ErrorMap, b: ErrorMap)
    ensures Count(a + b) == Count(a) + Count(b)
    decreases |a|
  {
    if |a| > 0 {
      assert (a + b)[1..] == a[1..] + b;
      CountConcat(a[1..], b);
    } else {
      assert a + b == b;
    }
  }

  lemma {:induction false} AddAllCount(acc: ErrorMap, pairs: ErrorMap)
    ensures Count(AddAll(acc, pairs)) == Count(acc) + Count(pairs)
    decreases |pairs|
  {
    if |pairs| > 0 {
      var i := FindFirst(acc, pairs[0].0);
      if i < |acc| {
        CountUpdate(acc, i, (pairs[0].0, acc[i].1 + pairs[0].1));
      } else {
        CountConcat(acc, [pairs[0]]);
      }
      AddAllCount(Add(acc, pairs[0].0, pairs[0].1), pairs[1..]);
    }
  }

  /** In AND mode no message is lost or invented: the counts add up. */
  lemma CombineAndCount(a: LegacyResult, b: LegacyResult)
    ensures Messages(Combine(a, b, false)) == Messages(a) + Messages(b)
  {
    if a.Invalid? && b.Invalid? {
      AddAllCount([], a.errors + b.errors);
      CountConcat(a.errors, b.errors);
    }
  }

  /** Entry `i` of `m` under the key `p + k`. */
  function Prefixed(m: ErrorMap, p: string): (r: ErrorMap)
    ensures |r| == |m|
    ensures forall i :: 0 <= i < |m| ==> r[i] == (p + m[i].0, m[i].1)
    decreases |m|
  {
    if |m| == 0 then [] else [(p + m[0].0, m[0].1)] + Prefixed(m[1..], p)
  }

  lemma {:induction false} PutAllPrefixed(done: ErrorMap, rest: ErrorMap, p: string, f: string -> string)
    requires forall s :: f(s) == p + s
    requires DistinctKeys(done + rest)
    ensures PutAll(Prefixed(done, p), rest, f) == Prefixed(done + rest, p)
    decreases |rest|
  {
    if |rest| == 0 {
      assert done + rest == done;
    } else {
      var acc := Prefixed(done, p);
      var k := f(rest[0].0);
      assert forall j :: 0 <= j < |acc| ==> acc[j].0 != k by {
        forall j | 0 <= j < |acc| ensures acc[j].0 != k {
          assert (done + rest)[j] == done[j] && (done + rest)[|done|] == rest[0];
          assert acc[j].0 == p + done[j].0;
          assert (p + done[j].0)[|p|..] == done[j].0;
          assert (p + rest[0].0)[|p|..] == rest[0].0;
        }
      }
      FindAbsent(acc, k);
      assert Put(acc, k, rest[0].1) == Prefixed(done + [rest[0]], p);
      assert (done + [rest[0]]) + rest[1..] == done + rest;
      PutAllPrefixed(done + [rest[0]], rest[1..], p, f);
    }
  }

  /**
   * `mapError` with a prefixing transform (the property and index
   * navigators): every key of a well-keyed result gets the prefix, in
   * order, and the messages stay as they were.
   */
  lemma MapErrorPrefixes(r: LegacyResult, p: string, f: string -> string)
    requires forall s :: f(s) == p + s
    requires r.Invalid? && WellKeyed(r)
    ensures MapError(r, f) == Invalid(Prefixed(r.errors, p))
    ensures Messages(MapError(r, f)) == Messages(r)
  {
    assert [] + r.errors == r.errors;
    PutAllPrefixed([], r.errors, p, f);
    PrefixedCount(r.errors, p);
  }

  lemma {:induction false} PrefixedCount(m: ErrorMap, p: string)
    ensures Count(Prefixed(m, p)) == Count(m)
    decreases |m|
  {
    if |m| > 0 {
      assert Prefixed(m, p)[1..] == Prefixed(m[1..], p);
      PrefixedCount(m[1..], p);
    }
  }

  // ---------------------------------------------------------------------
  // Re-keying of map entries
  // ---------------------------------------------------------------------

  /** `removePrefix`. */
  function RemovePrefix(s: string, prefix: string): (r: string)
    ensures StartsWith(s, prefix) ==> s == prefix + r
    ensures !StartsWith(s, prefix) ==> r == s
  {
    if StartsWith(s, prefix) then s[|prefix|..] else s
  }

  /** The key transform of `MapValidation`: "." + the rendered key, and a leading ".value" dropped. */
  function EntryKey(key: Value, s: string): string
  {
    "." + ToString(key) + RemovePrefix(s, ".value")
  }

  /**
   * `mapError` with the entry transform as written: errors of the entry
   * itself (key "") and of its value (key ".value") land on the same key,
   * and `mapKeys` keeps only the later list.
   */
  function EntryErrorsAsWritten(r: LegacyResult, key: Value): LegacyResult
  {
    MapError(r, s => EntryKey(key, s))
  }

  /** The messages of the entry itself are lost when its value failed too. */
  lemma EntryErrorsAsWrittenLoseMessages()
    ensures var r := Invalid([("", ["entry"]), (".value", ["value"])]);
      var s := EntryErrorsAsWritten(r, Str("k"));
      WellKeyed(r) && Messages(r) == 2 && s == Invalid([(".k", ["value"])]) && Messages(s) == 1
  {
    var r := Invalid([("", ["entry"]), (".value", ["value"])]);
    var f := (s: string) => EntryKey(Str("k"), s);
    assert f("") == ".k";
    assert f(".value") == ".k";
    var first := Put([], ".k", ["entry"]);
    assert first == [(".k", ["entry"])];
    assert FindFirst(first, ".k") == 0;
    assert r.errors[1..][1..] == [];
    assert PutAll([], r.errors, f) == PutAll(first, r.errors[1..], f);
    assert PutAll(first, r.errors[1..], f) == PutAll([(".k", ["value"])], [], f);
  }

  /** As written, the re-keying may drop messages but never invents any. */
  lemma EntryErrorsAsWrittenCount(r: LegacyResult, key: Value)
    ensures Messages(EntryErrorsAsWritten(r, key)) <= Messages(r)
    ensures EntryErrorsAsWritten(r, key).Invalid? == r.Invalid?
  {
    if r.Invalid? {
      PutAllCount([], r.errors, s => EntryKey(key, s));
    }
  }

  lemma PutCount(m: ErrorMap, k: string, v: seq<string>)
    ensures Count(Put(m, k, v)) <= Count(m) + |v|
  {
    var i := FindFirst(m, k);
    if i < |m| {
      CountUpdate(m, i, (k, v));
    } else {
      CountConcat(m, [(k, v)]);
    }
  }

  lemma {:induction false} PutAllCount(acc: ErrorMap, m: ErrorMap, f: string -> string)
    ensures Count(PutAll(acc, m, f)) <= Count(acc) + Count(m)
    decreases |m|
  {
    if |m| > 0 {
      PutCount(acc, f(m[0].0), m[0].1);
      PutAllCount(Put(acc, f(m[0].0), m[0].1), m[1..], f);
    }
  }

  /**
   * The re-keying evidently intended: the lists of keys that meet are
   * concatenated, as `combineWith` does, so no message is lost.
   */
  function EntryErrors(r: LegacyResult, key: Value): (s: LegacyResult)
    ensures r.Valid? ==> s == r
    ensures r.NoResult? ==> s == r
    ensures r.Invalid? <==> s.Invalid?
    ensures WellKeyed(s)
  {
    match r
    case Invalid(errors) =>
      var pairs := ReKeyed(errors, key);
      GroupByDistinct([], pairs);
      Invalid(GroupBy(pairs))
    case _ => r
  }

  function ReKeyed(m: ErrorMap, key: Value): (r: ErrorMap)
    ensures |r| == |m|
    ensures forall i :: 0 <= i < |m| ==> r[i] == (EntryKey(key, m[i].0), m[i].1)
    decreases |m|
  {
    if |m| == 0 then [] else [(EntryKey(key, m[0].0), m[0].1)] + ReKeyed(m[1..], key)
  }

  /** The corrected re-keying keeps every message. */
  lemma EntryErrorsKeepMessages(r: LegacyResult, key: Value)
    ensures Messages(EntryErrors(r, key)) == Messages(r)
  {
    if r.Invalid? {
      AddAllCount([], ReKeyed(r.errors, key));
      ReKeyedCount(r.errors, key);
    }
  }

  lemma {:induction false} ReKeyedCount(m: ErrorMap, key: Value)
    ensures Count(ReKeyed(m, key)) == Count(m)
    decreases |m|
  {
    if |m| > 0 {
      assert ReKeyed(m, key)[1..] == ReKeyed(m[1..], key);
      ReKeyedCount(m[1..], key);
    }
  }
}
