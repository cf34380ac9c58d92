/**
 * Runtime values seen by the validation engine, the exceptions it can raise,
 * the per-run property map, and the few string operations of the Kotlin
 * standard library the engine relies on (`toString`, `replace`, `split`,
 * `joinToString`).
 */
module Values {

  /** Kotlin's nullable results (`?: return`, `?.let`). */
  datatype Option<+T> = None | Some(value: T)

  /** The exceptions the modelled code can throw. */
  datatype Exception =
    | NoSuchElement
    | IndexOutOfBounds
    | ClassCast
    | NullPointer
    | IllegalState(reason: string)
    | IllegalArgument(reason: string)

  /** A computation that either returns a value or throws. */
  datatype Outcome<+T> = Ok(value: T) | Throw(exception: Exception)

  /** A computation without a value that either completes or throws. */
  datatype Completion = Normal | Abrupt(exception: Exception)

  /**
   * A value being validated. Kotlin objects are reached only through path
   * descriptors (name + getter), so a `Record` is enough to stand for them;
   * `List` is any Kotlin `Iterable`, `Array` a Kotlin array, `Map` a map in
   * iteration order and `Entry` one of its `Map.Entry` elements.
   */
  datatype Value =
    | Null
    | Bool(b: bool)
    | Int(i: int)
    | Str(s: string)
    | Record(fields: map<string, Value>)
    | List(items: seq<Value>)
    | Array(items: seq<Value>)
    | Map(entries: seq<(Value, Value)>)
    | Entry(key: Value, value: Value)

  /**
   * An entry of the context map: either a value the caller put there, or the
   * mutable set of visited objects the cycle guard keeps.
   */
  datatype Prop = PValue(v: Value) | PVisited(visited: set<Value>)

  /** The key/value map every validation run carries. */
  type Props = map<string, Prop>

  // ---------------------------------------------------------------------
  // Rendering of numbers and values (Kotlin's toString)
  // ---------------------------------------------------------------------

  function DigitChar(d: nat): char
    requires d < 10
  {
    "0123456789"[d]
  }

  function NatToString(n: nat): (r: string)
    ensures |r| >= 1
    ensures forall k :: 0 <= k < |r| ==> '0' <= r[k] <= '9'
  {
    if n < 10 then [DigitChar(n)] else NatToString(n / 10) + [DigitChar(n % 10)]
  }

  /** Decimal rendering of an integer, as `Int.toString()` does. */
  function IntToString(i: int): string
  {
    if i < 0 then "-" + NatToString(-i) else NatToString(i)
  }

  lemma DigitCharInjective(c: nat, d: nat)
    requires c < 10 && d < 10 && DigitChar(c) == DigitChar(d)
    ensures c == d
  {
  }

  lemma NatToStringLength(n: nat)
    ensures |NatToString(n)| == 1 <==> n < 10
  {
    if n >= 10 {
      assert |NatToString(n / 10)| >= 1;
    }
  }

  lemma {:induction false} NatToStringInjective(m: nat, n: nat)
    requires NatToString(m) == NatToString(n)
    ensures m == n
  {
    var s := NatToString(m);
    NatToStringLength(m);
    NatToStringLength(n);
    if m >= 10 {
      assert n >= 10;
      var a, b := NatToString(m / 10), NatToString(n / 10);
      assert s == a + [DigitChar(m % 10)] == b + [DigitChar(n % 10)];
      assert a == s[..|s| - 1] == b;
      NatToStringInjective(m / 10, n / 10);
      DigitCharInjective(m % 10, n % 10);
      assert m == (m / 10) * 10 + m % 10;
      assert n == (n / 10) * 10 + n % 10;
    } else {
      assert DigitChar(m) == s[0] == DigitChar(n);
      DigitCharInjective(m, n);
    }
  }

  lemma IntToStringSign(i: int)
    ensures |IntToString(i)| >= 1
    ensures IntToString(i)[0] == '-' <==> i < 0
  {
  }

  /** Different integers render differently, so "[i]" names identify their index. */
  lemma IntToStringInjective(i: int, j: int)
    requires IntToString(i) == IntToString(j)
    ensures i == j
  {
    IntToStringSign(i);
    IntToStringSign(j);
    if i < 0 {
      assert NatToString(-i) == IntToString(i)[1..] == IntToString(j)[1..] == NatToString(-j);
      NatToStringInjective(-i, -j);
    } else {
      NatToStringInjective(i, j);
    }
  }

  /**
   * `toString()` of a value. Scalars and collections follow Kotlin's format
   * ("null", "true", "[a, b]", "{k=v}", "k=v"); an object or array has an
   * identity-based rendering in Kotlin, which is stood for by a fixed text.
   */
  function ToString(v: Value): string
    decreases v, 1
  {
    match v
    case Null => "null"
    case Bool(b) => if b then "true" else "false"
    case Int(i) => IntToString(i)
    case Str(s) => s
    case Record(_) => "Record"
    case List(items) => "[" + JoinValues(v, items, 0) + "]"
    case Array(_) => "Array"
    case Map(entries) => "{" + JoinEntries(v, entries, 0) + "}"
    case Entry(k, e) => ToString(k) + "=" + ToString(e)
  }

  function JoinValues(owner: Value, items: seq<Value>, i: nat): string
    requires i <= |items|
    requires forall k :: 0 <= k < |items| ==> items[k] < owner
    decreases owner, 0, |items| - i
  {
    if i == |items| then ""
    else (if i == 0 then "" else ", ") + ToString(items[i]) + JoinValues(owner, items, i + 1)
  }

  function JoinEntries(owner: Value, entries: seq<(Value, Value)>, i: nat): string
    requires i <= |entries|
    requires forall k :: 0 <= k < |entries| ==> entries[k].0 < owner && entries[k].1 < owner
    decreases owner, 0, |entries| - i
  {
    if i == |entries| then ""
    else
      (if i == 0 then "" else ", ") + ToString(entries[i].0) + "=" + ToString(entries[i].1)
      + JoinEntries(owner, entries, i + 1)
  }

  // ---------------------------------------------------------------------
  // String.replace
  // ---------------------------------------------------------------------

  predicate StartsWith(s: string, prefix: string)
  {
    |prefix| <= |s| && s[..|prefix|] == prefix
  }

  /** Moving a middle part from the front half of a concatenation to the back half. */
  lemma AppendRegroup<T>(before: seq<T>, middle: seq<T>, after: seq<T>, rest: seq<T>, all: seq<T>)
    requires after == before + middle && all == middle + rest
    ensures after + rest == before + all
  {
    assert (before + middle) + rest == before + (middle + rest);
  }

  /**
   * `String.length` on the JVM: the number of UTF-16 code units. A
   * character outside the Basic Multilingual Plane is a surrogate pair and
   * counts twice.
   */
  function Utf16Length(s: string): (n: nat)
    ensures |s| <= n <= 2 * |s|
    ensures n == |s| <==> forall i :: 0 <= i < |s| ==> (s[i] as int) < 0x1_0000
    decreases |s|
  {
    if |s| == 0 then 0
    else (if (s[0] as int) < 0x1_0000 then 1 else 2) + Utf16Length(s[1..])
  }

  /** One character outside the Basic Multilingual Plane has length 2. */
  lemma Utf16LengthOfSurrogatePair()
    ensures Utf16Length("\U{1F600}") == 2
  {
  }

  /** Position of the first entry whose key is `key`, or the length when no entry has it. */
  function FindFirst<K(==), V>(entries: seq<(K, V)>, key: K): (i: nat)
    ensures i <= |entries|
    ensures i < |entries| ==> entries[i].0 == key
    ensures forall j :: 0 <= j < i ==> entries[j].0 != key
  {
    if |entries| == 0 then 0
    else if entries[0].0 == key then 0
    else 1 + FindFirst(entries[1..], key)
  }

  /**
   * `s.replace(pattern, replacement)`: every non-overlapping occurrence of `pattern`, found
   * from the left, is replaced by `replacement`; an empty `pattern` matches before every
   * character and at the end.
   */
  function Replace(s: string, pattern: string, replacement: string): string
    decreases |s|
  {
    if |pattern| == 0 then
      (if |s| == 0 then replacement else replacement + [s[0]] + Replace(s[1..], pattern, replacement))
    else if |s| < |pattern| then s
    else if s[..|pattern|] == pattern then replacement + Replace(s[|pattern|..], pattern, replacement)
    else [s[0]] + Replace(s[1..], pattern, replacement)
  }

  /** Text that cannot start an occurrence of `pattern` passes through unchanged. */
  lemma {:induction false} ReplaceSkipsPrefix(a: string, s: string, pattern: string, replacement: string)
    requires |pattern| > 0 && pattern[0] !in a
    ensures Replace(a + s, pattern, replacement) == a + Replace(s, pattern, replacement)
    decreases |a|
  {
    if |a| > 0 {
      var t := a + s;
      assert t[0] == a[0] != pattern[0];
      if |t| >= |pattern| {
        assert t[..|pattern|][0] == a[0];
      }
      assert t[1..] == a[1..] + s;
      assert Replace(t, pattern, replacement) == [a[0]] + Replace(t[1..], pattern, replacement);
      ReplaceSkipsPrefix(a[1..], s, pattern, replacement);
      assert [a[0]] + (a[1..] + Replace(s, pattern, replacement)) == a + Replace(s, pattern, replacement);
    } else {
      assert a + s == s;
    }
  }

  /** A string without the first character of `pattern` is left unchanged. */
  lemma ReplaceAbsent(s: string, pattern: string, replacement: string)
    requires |pattern| > 0 && pattern[0] !in s
    ensures Replace(s, pattern, replacement) == s
  {
    ReplaceSkipsPrefix(s, "", pattern, replacement);
    assert s + "" == s;
  }

  /** An occurrence at the front is replaced and scanning resumes after it. */
  lemma ReplaceAtFront(s: string, pattern: string, replacement: string)
    requires |pattern| > 0
    ensures Replace(pattern + s, pattern, replacement) == replacement + Replace(s, pattern, replacement)
  {
    var t := pattern + s;
    assert t[..|pattern|] == pattern;
    assert t[|pattern|..] == s;
  }

  // ---------------------------------------------------------------------
  // Lines, split and join
  // ---------------------------------------------------------------------

  /** `s.split("\n")`: the lines of `s`; there is always at least one. */
  function Lines(s: string): (r: seq<string>)
    ensures |r| >= 1
    ensures forall k :: 0 <= k < |r| ==> '\n' !in r[k]
  {
    if |s| == 0 then [""]
    else
      var rest := Lines(s[1..]);
      if s[0] == '\n' then [""] + rest else [[s[0]] + rest[0]] + rest[1..]
  }

  /** `lines.joinToString(separator)`. */
  function Join(lines: seq<string>, separator: string): string
  {
    if |lines| == 0 then ""
    else if |lines| == 1 then lines[0]
    else lines[0] + separator + Join(lines[1..], separator)
  }

  lemma {:induction false} LinesOfNewlineFree(a: string, s: string)
    requires '\n' !in a
    ensures Lines(a + s) == [a + Lines(s)[0]] + Lines(s)[1..]
    decreases |a|
  {
    if |a| == 0 {
      assert a + s == s;
      assert a + Lines(s)[0] == Lines(s)[0];
      assert [Lines(s)[0]] + Lines(s)[1..] == Lines(s);
    } else {
      assert (a + s)[1..] == a[1..] + s;
      LinesOfNewlineFree(a[1..], s);
      assert [a[0]] + (a[1..] + Lines(s)[0]) == a + Lines(s)[0];
    }
  }

  /** Splitting a join of newline-free lines gives the lines back. */
  lemma {:induction false} LinesOfJoin(lines: seq<string>)
    requires |lines| >= 1
    requires forall k :: 0 <= k < |lines| ==> '\n' !in lines[k]
    ensures Lines(Join(lines, "\n")) == lines
    decreases |lines|
  {
    if |lines| == 1 {
      LinesOfNewlineFree(lines[0], "");
      assert lines[0] + "" == lines[0];
    } else {
      var tail := Join(lines[1..], "\n");
      LinesOfJoin(lines[1..]);
      LinesOfNewlineFree(lines[0], "\n" + tail);
      assert ("\n" + tail)[1..] == tail;
      assert Lines("\n" + tail) == [""] + lines[1..];
      assert Join(lines, "\n") == lines[0] + ("\n" + tail);
      assert lines[0] + Lines("\n" + tail)[0] == lines[0];
      assert [lines[0]] + lines[1..] == lines;
    }
  }

  /** Every line of `s` with a tab in front. */
  function TabbedLines(lines: seq<string>): (r: seq<string>)
    ensures |r| == |lines|
    ensures forall k :: 0 <= k < |lines| ==> r[k] == "\t" + lines[k]
  {
    if |lines| == 0 then [] else ["\t" + lines[0]] + TabbedLines(lines[1..])
  }

  /**
   * `String.indented()` of ValidationResult.kt: the lines of `s`, each
   * prefixed by a tab, joined again with newlines.
   */
  function Indented(s: string): string
  {
    Join(TabbedLines(Lines(s)), "\n")
  }

  /** Indenting prefixes every line with a tab and keeps the number of lines. */
  lemma IndentedLines(s: string)
    ensures |Lines(Indented(s))| == |Lines(s)|
    ensures forall k :: 0 <= k < |Lines(s)| ==> Lines(Indented(s))[k] == "\t" + Lines(s)[k]
  {
    var tabbed := TabbedLines(Lines(s));
    forall k | 0 <= k < |tabbed| ensures '\n' !in tabbed[k] {
      assert tabbed[k] == "\t" + Lines(s)[k];
    }
    LinesOfJoin(tabbed);
  }
}
