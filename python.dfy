/**
  The pieces of Python's built-in behaviour that the command-line layer of
  ShakeNBreak leans on: values as loaded from a YAML/JSON config file, their
  truthiness, `int(...)`, `str.replace(p, "")`, `str.rsplit("_", 1)` and
  `str(int)`.
 */
module Python {

  datatype Option<+T> = None | Some(value: T)

  /** The exceptions the modelled code can raise. */
  datatype PyError = ValueError | TypeError | AttributeError | IndexError | KeyError

  datatype Result<+T> = Ok(value: T) | Err(error: PyError)

  /** A value loaded from a YAML or JSON config file (`loadfn`). */
  datatype Value =
    | Null
    | Bool(b: bool)
    | Int(i: int)
    | Float(r: real)
    | Str(s: string)
    | List(items: seq<Value>)
    | Dict(entries: map<string, Value>)

  /** Python's truth value of an object (`if v:`). */
  predicate Truthy(v: Value) {
    match v
    case Null => false
    case Bool(b) => b
    case Int(i) => i != 0
    case Float(r) => r != 0.0
    case Str(s) => s != ""
    case List(xs) => xs != []
    case Dict(m) => m != map[]
  }

  /** A Python list of ints, `[c0, c1, ...]`. */
  function IntList(cs: seq<int>): (v: Value)
    ensures v.List? && |v.items| == |cs|
    ensures forall i :: 0 <= i < |cs| ==> v.items[i] == Int(cs[i])
  {
    List(seq(|cs|, i requires 0 <= i < |cs| => Int(cs[i])))
  }

  /** `d.get(key)` (or `d.get(key, None)`) on a dict; anything else has no `.get`. */
  function DictGet(d: Value, key: string): (r: Result<Value>)
    ensures r.Err? <==> !d.Dict?
    ensures d.Dict? && key in d.entries ==> r == Ok(d.entries[key])
    ensures d.Dict? && key !in d.entries ==> r == Ok(Null)
  {
    if !d.Dict? then Err(AttributeError)
    else if key in d.entries then Ok(d.entries[key])
    else Ok(Null)
  }

  /** `d.pop(key, default)` on a dict: the value and the dict without the key. */
  function Pop(d: map<string, Value>, key: string, default: Value): (r: (Value, map<string, Value>))
    ensures r.1.Keys == d.Keys - {key}
    ensures forall k :: k in r.1 ==> r.1[k] == d[k]
    ensures r.0 == if key in d then d[key] else default
  {
    (if key in d then d[key] else default, d - {key})
  }

  // ---------------------------------------------------------------------------
  // Strings

  /** `p in s` for strings: `p` occurs in `s` at some index. */
  predicate Contains(s: string, p: string) {
    exists i :: 0 <= i <= |s| - |p| && OccursAt(s, p, i)
  }

  /** `p` occurs in `s` starting at index `i`. */
  predicate OccursAt(s: string, p: string, i: int) {
    0 <= i <= |s| - |p| && s[i..i + |p|] == p
  }

  /** `s.startswith(p)`, also what an fnmatch pattern `p*` matches. */
  predicate StartsWith(s: string, p: string) {
    |p| <= |s| && s[..|p|] == p
  }

  /** `s.endswith(c)` for a one-character suffix. */
  predicate EndsWith(s: string, c: char) {
    |s| > 0 && s[|s| - 1] == c
  }

  lemma StartsWithContains(s: string, p: string)
    requires StartsWith(s, p)
    ensures Contains(s, p)
  {
    assert OccursAt(s, p, 0);
  }

  /**
    `s.replace(p, "")`: scans left to right and deletes each
    non-overlapping occurrence of `p`. Replacing the empty string with the
    empty string leaves `s` as it is.
   */
  function RemoveAll(s: string, p: string): (r: string)
    ensures |r| <= |s|
    decreases |s|
  {
    if p == [] || |s| < |p| then s
    else if s[..|p|] == p then RemoveAll(s[|p|..], p)
    else [s[0]] + RemoveAll(s[1..], p)
  }

  /** Where `p` does not start `s` (they differ at index `k`), `replace` keeps the first character. */
  lemma RemoveAllKeepsFirst(s: string, p: string, k: nat)
    requires k < |p| <= |s| && s[k] != p[k]
    ensures RemoveAll(s, p) == [s[0]] + RemoveAll(s[1..], p)
  {
    assert s[..|p|][k] != p[k];
  }

  /** An occurrence in `s` without its first character is an occurrence in `s` one index later. */
  lemma OccursAtShift(s: string, p: string, i: int)
    requires s != [] && 0 <= i
    ensures OccursAt(s[1..], p, i) <==> OccursAt(s, p, i + 1)
  {
    if 0 <= i <= |s| - 1 - |p| {
      assert s[1..][i..i + |p|] == s[i + 1..i + 1 + |p|];
    }
  }

  /** Where `p` does not start `s`, it occurs in `s` exactly when it occurs in `s` without its first character. */
  lemma ContainsAfterFirst(s: string, p: string)
    requires p != [] && |p| <= |s| && s[..|p|] != p
    ensures Contains(s, p) <==> Contains(s[1..], p)
  {
    if Contains(s, p) {
      var i :| 0 <= i <= |s| - |p| && OccursAt(s, p, i);
      assert i != 0;
      OccursAtShift(s, p, i - 1);
    }
    if Contains(s[1..], p) {
      var i :| 0 <= i <= |s[1..]| - |p| && OccursAt(s[1..], p, i);
      OccursAtShift(s, p, i);
    }
  }

  /** Deleting a non-empty pattern changes the string exactly when the pattern occurs in it. */
  lemma {:induction false} RemoveAllIdentity(s: string, p: string)
    requires p != []
    ensures RemoveAll(s, p) == s <==> !Contains(s, p)
    decreases |s|
  {
    if |s| < |p| {
      assert !Contains(s, p);
    } else if s[..|p|] == p {
      assert OccursAt(s, p, 0);
      assert |RemoveAll(s[|p|..], p)| < |s|;
    } else {
      RemoveAllIdentity(s[1..], p);
      ContainsAfterFirst(s, p);
      var t := RemoveAll(s[1..], p);
      assert RemoveAll(s, p) == [s[0]] + t;
      assert s == [s[0]] + s[1..];
      assert [s[0]] + t == [s[0]] + s[1..] <==> t == s[1..] by {
        if [s[0]] + t == [s[0]] + s[1..] {
          assert t == ([s[0]] + t)[1..];
        }
      }
    }
  }

  /** Index of the last occurrence of `c` in `s` (`s.rfind(c)`), None when absent. */
  function LastIndexOf(s: string, c: char): (r: Option<nat>)
    ensures r.Some? ==> r.value < |s| && s[r.value] == c
    ensures r.Some? ==> forall j :: r.value < j < |s| ==> s[j] != c
    ensures r.None? <==> c !in s
  {
    if s == [] then None
    else if s[|s| - 1] == c then Some(|s| - 1)
    else
      assert forall j :: 0 <= j < |s| - 1 ==> s[..|s| - 1][j] == s[j];
      LastIndexOf(s[..|s| - 1], c)
  }

  /** `s.rsplit("_", 1)[0]`: everything before the last underscore, or all of `s`. */
  function RSplitHead(s: string): (h: string)
    ensures |h| <= |s| && h == s[..|h|]
    ensures '_' !in s ==> h == s
  {
    match LastIndexOf(s, '_')
    case None => s
    case Some(i) => s[..i]
  }

  /** `s.rsplit("_", 1)[1]`: everything after the last underscore; None is the IndexError. */
  function RSplitTail(s: string): (t: Option<string>)
    ensures t.None? <==> '_' !in s
    ensures t.Some? ==> '_' !in t.value && s == RSplitHead(s) + "_" + t.value
  {
    match LastIndexOf(s, '_')
    case None => None
    case Some(i) =>
      assert s == s[..i] + "_" + s[i + 1..];
      Some(s[i + 1..])
  }

  // ---------------------------------------------------------------------------
  // Integers and their decimal spelling

  predicate IsDigit(c: char) { '0' <= c <= '9' }

  predicate IsDigits(s: string) {
    |s| > 0 && forall i :: 0 <= i < |s| ==> IsDigit(s[i])
  }

  function DigitValue(c: char): nat
    requires IsDigit(c)
  {
    (c as int - '0' as int) as nat
  }

  function DigitChar(d: nat): (c: char)
    requires d < 10
    ensures IsDigit(c) && DigitValue(c) == d
  {
    ('0' as int + d) as char
  }

  /** The number a run of decimal digits spells, most significant first. */
  function DigitsValue(s: string): nat
    requires forall i :: 0 <= i < |s| ==> IsDigit(s[i])
  {
    if s == [] then 0 else DigitsValue(s[..|s| - 1]) * 10 + DigitValue(s[|s| - 1])
  }

  /**
    `int(s)` on a string: an optional sign followed by decimal digits;
    None is the ValueError.
   */
  function ParseInt(s: string): Option<int> {
    if |s| > 0 && (s[0] == '-' || s[0] == '+') then
      if IsDigits(s[1..]) then
        Some(if s[0] == '-' then -(DigitsValue(s[1..]) as int) else DigitsValue(s[1..]))
      else None
    else if IsDigits(s) then Some(DigitsValue(s))
    else None
  }

  /** `str(n)` for a natural number. */
  function NatToDecimal(n: nat): (s: string)
    ensures IsDigits(s)
  {
    if n < 10 then [DigitChar(n)] else NatToDecimal(n / 10) + [DigitChar(n % 10)]
  }

  /** `str(i)` for an integer: a minus sign only for negative numbers. */
  function IntToDecimal(i: int): (s: string)
    ensures '_' !in s
  {
    if i < 0 then "-" + NatToDecimal(-i) else NatToDecimal(i)
  }

  lemma {:induction false} DigitsValueOfDecimal(n: nat)
    ensures DigitsValue(NatToDecimal(n)) == n
  {
    if n >= 10 {
      DigitsValueOfDecimal(n / 10);
      var s := NatToDecimal(n);
      assert s[..|s| - 1] == NatToDecimal(n / 10);
    }
  }

  /** `int(str(i)) == i`. */
  lemma ParseIntOfDecimal(i: int)
    ensures ParseInt(IntToDecimal(i)) == Some(i)
  {
    if i < 0 {
      DigitsValueOfDecimal(-i);
      assert IntToDecimal(i)[1..] == NatToDecimal(-i);
    } else {
      DigitsValueOfDecimal(i);
    }
  }

  /**
    `int(v)` on a config value: ints as they are, booleans as 0/1, floats
    truncated toward zero, strings parsed; None, lists and dicts raise.
   */
  function PyInt(v: Value): (r: Result<int>)
    ensures v.Int? ==> r == Ok(v.i)
    ensures v.Null? || v.List? || v.Dict? ==> r == Err(TypeError)
    ensures v.Float? ==> r.Ok?
    ensures v.Float? && v.r >= 0.0 ==> 0.0 <= v.r - r.value as real < 1.0
    ensures v.Float? && v.r < 0.0 ==> -1.0 < v.r - r.value as real <= 0.0
  {
    match v
    case Int(i) => Ok(i)
    case Bool(b) => Ok(if b then 1 else 0)
    case Float(x) => Ok(if x >= 0.0 then x.Floor else -((-x).Floor))
    case Str(s) => (match ParseInt(s) case Some(i) => Ok(i) case None => Err(ValueError))
    case _ => Err(TypeError)
  }
}
