/**
 * PHP values and the handful of PHP built-ins the library relies on, with
 * PHP 8 semantics.
 *
 * A PHP array is an ordered sequence of entries with normalised keys (a
 * numeric string key is already an integer key). A float is represented by
 * the text PHP prints for it. An object carries its class name and the set of
 * its strict ancestors (parent classes and implemented interfaces), which is
 * all `is_subclass_of` looks at.
 */
module Php {
  import opened Errors

  datatype Key = IntKey(n: int) | StrKey(s: string)

  datatype Value =
    | Null
    | Bool(b: bool)
    | Int(i: int)
    | Float(text: string)
    | Str(s: string)
    | Arr(entries: seq<Entry>)
    | Object(cls: string, ancestors: set<string>)
    | Resource(id: nat)

  datatype Entry = Entry(key: Key, val: Value)

  /* ---------------------------------------------------------------------
   * Array access
   * ------------------------------------------------------------------- */

  /** The value stored under `k`, if the key exists (`array_key_exists`). */
  function Find(es: seq<Entry>, k: Key): (r: Option<Value>)
    ensures r.None? <==> forall i :: 0 <= i < |es| ==> es[i].key != k
    ensures r.Some? ==> Entry(k, r.value) in es
  {
    if es == [] then None
    else if es[0].key == k then Some(es[0].val)
    else Find(es[1..], k)
  }

  /** `$a[k]` on read: an undefined index reads as null. */
  function Get(es: seq<Entry>, k: Key): Value {
    match Find(es, k)
    case None => Null
    case Some(v) => v
  }

  /** `isset($a[k])`: the key exists and its value is not null. */
  predicate IsSet(es: seq<Entry>, k: Key) {
    Get(es, k) != Null
  }

  /** `$a[k] = v`: overwrite the entry in place, or append a new one. */
  function Put(es: seq<Entry>, k: Key, v: Value): (r: seq<Entry>)
    ensures Find(r, k) == Some(v)
    ensures forall k' :: k' != k ==> Find(r, k') == Find(es, k')
  {
    if es == [] then [Entry(k, v)]
    else if es[0].key == k then [Entry(k, v)] + es[1..]
    else [es[0]] + Put(es[1..], k, v)
  }

  /** The values of an array in iteration order (what `foreach ($a as $v)` visits). */
  function Values(es: seq<Entry>): (r: seq<Value>)
    ensures |r| == |es|
    ensures forall i :: 0 <= i < |es| ==> r[i] == es[i].val
  {
    if es == [] then [] else [es[0].val] + Values(es[1..])
  }

  /** An array all of whose keys are integers (a list). */
  predicate IsList(es: seq<Entry>) {
    forall i :: 0 <= i < |es| ==> es[i].key.IntKey?
  }

  /* ---------------------------------------------------------------------
   * Types and conversions
   * ------------------------------------------------------------------- */

  /** `is_scalar`: booleans, integers, floats and strings. */
  predicate IsScalar(v: Value) {
    v.Bool? || v.Int? || v.Float? || v.Str?
  }

  /** `is_subclass_of($v, cls)` for an object: `cls` is a strict ancestor. */
  predicate IsSubclassOf(v: Value, cls: string) {
    v.Object? && cls in v.ancestors
  }

  predicate IsDigit(c: char) {
    '0' <= c <= '9'
  }

  predicate AllDigits(s: string) {
    forall i :: 0 <= i < |s| ==> IsDigit(s[i])
  }

  function DigitValue(c: char): nat
    requires IsDigit(c)
  {
    (c as int) - ('0' as int)
  }

  function DigitChar(d: nat): (c: char)
    requires d < 10
    ensures IsDigit(c) && DigitValue(c) == d
  {
    (('0' as int) + d) as char
  }

  /** The number a string of decimal digits denotes (most significant first). */
  function NaturalValue(ds: string): nat
    requires AllDigits(ds)
  {
    if ds == [] then 0
    else 10 * NaturalValue(ds[..|ds| - 1]) + DigitValue(ds[|ds| - 1])
  }

  /** The decimal text of a natural number, as PHP prints it. */
  function NatToString(n: nat): (s: string)
    ensures |s| > 0 && AllDigits(s)
  {
    if n < 10 then [DigitChar(n)] else NatToString(n / 10) + [DigitChar(n % 10)]
  }

  /** `(string)$i` for an integer. */
  function IntToString(i: int): string {
    if i < 0 then "-" + NatToString(-i) else NatToString(i)
  }

  function Pow10(n: nat): (r: nat)
    ensures r > 0
  {
    if n == 0 then 1 else 10 * Pow10(n - 1)
  }

  function IndexOf(s: string, c: char): (r: Option<nat>)
    ensures r.None? <==> c !in s
    ensures r.Some? ==> r.value < |s| && s[r.value] == c && c !in s[..r.value]
  {
    if s == [] then None
    else if s[0] == c then Some(0)
    else match IndexOf(s[1..], c)
      case None => None
      case Some(p) => assert s[..p + 1] == [s[0]] + s[1..][..p]; Some(p + 1)
  }

  /** Digits with an optional decimal point, at least one digit in all. */
  function UnsignedDecimal(s: string): Option<real> {
    match IndexOf(s, '.')
    case None =>
      if s != [] && AllDigits(s) then Some(NaturalValue(s) as real) else None
    case Some(p) =>
      var whole, frac := s[..p], s[p + 1..];
      if |whole| + |frac| > 0 && AllDigits(whole) && AllDigits(frac)
      then Some(NaturalValue(whole) as real + (NaturalValue(frac) as real) / (Pow10(|frac|) as real))
      else None
  }

  /**
   * The value of a numeric string in plain decimal notation with an optional
   * sign; `None` when the string is not numeric in that notation.
   */
  function DecimalValue(s: string): Option<real> {
    if |s| > 0 && (s[0] == '-' || s[0] == '+') then
      match UnsignedDecimal(s[1..])
      case None => None
      case Some(x) => Some(if s[0] == '-' then -x else x)
    else UnsignedDecimal(s)
  }

  /** `is_numeric` on a string. */
  predicate IsNumericString(s: string) {
    DecimalValue(s).Some?
  }

  /** `(int)` of a float: truncation toward zero. */
  function Truncate(x: real): (r: int)
    ensures x >= 0.0 ==> r as real <= x < r as real + 1.0
    ensures x < 0.0 ==> r as real - 1.0 < x <= r as real
  {
    if x >= 0.0 then x.Floor else -((-x).Floor)
  }

  /**
   * `(string)$v`. An array converts to "Array" (PHP warns); an object
   * without a string conversion raises an engine error.
   */
  function ToStr(v: Value): Option<string> {
    match v
    case Null => Some("")
    case Bool(b) => Some(if b then "1" else "")
    case Int(i) => Some(IntToString(i))
    case Float(t) => Some(t)
    case Str(s) => Some(s)
    case Arr(_) => Some("Array")
    case Object(_, _) => None
    case Resource(id) => Some("Resource id #" + NatToString(id))
  }

  /** The key's string form, `(string)$key`. */
  function KeyString(k: Key): string {
    match k
    case IntKey(n) => IntToString(n)
    case StrKey(s) => s
  }

  /**
   * A string array key PHP stores as an integer key: a decimal integer
   * without leading zeros, sign `+` or negative zero.
   */
  predicate IsIntegerKey(s: string) {
    (|s| > 0 && AllDigits(s) && (s[0] != '0' || |s| == 1))
    || (|s| > 1 && s[0] == '-' && AllDigits(s[1..]) && s[1] != '0')
  }

  /** The normalised key `$a[$s]` addresses. */
  function KeyOf(s: string): (k: Key)
    ensures k.StrKey? <==> !IsIntegerKey(s)
    ensures k.StrKey? ==> k.s == s
  {
    if |s| > 0 && AllDigits(s) && (s[0] != '0' || |s| == 1) then IntKey(NaturalValue(s))
    else if |s| > 1 && s[0] == '-' && AllDigits(s[1..]) && s[1] != '0' then IntKey(-(NaturalValue(s[1..]) as int))
    else StrKey(s)
  }

  /** `implode($sep, $pieces)` on strings. */
  function Implode(sep: string, pieces: seq<string>): string {
    if |pieces| == 0 then ""
    else if |pieces| == 1 then pieces[0]
    else Implode(sep, pieces[..|pieces| - 1]) + sep + pieces[|pieces| - 1]
  }

  /** `explode` on a single-character delimiter: the pieces between the delimiters. */
  function Explode(c: char, s: string): (r: seq<string>)
    ensures |r| > 0
    ensures forall i :: 0 <= i < |r| ==> c !in r[i]
    decreases |s|
  {
    match IndexOf(s, c)
    case None => [s]
    case Some(p) => [s[..p]] + Explode(c, s[p + 1..])
  }

  /** Imploding a piece in front of a non-empty list puts one separator after it. */
  lemma {:induction false} ImplodeCons(sep: string, a: string, rest: seq<string>)
    requires |rest| > 0
    ensures Implode(sep, [a] + rest) == a + sep + Implode(sep, rest)
    decreases |rest|
  {
    var ps := [a] + rest;
    if |rest| > 1 {
      assert ps[..|ps| - 1] == [a] + rest[..|rest| - 1];
      ImplodeCons(sep, a, rest[..|rest| - 1]);
    } else {
      assert ps[..|ps| - 1] == [a];
    }
  }

  /** Exploding on a character and imploding with it gives the string back. */
  lemma {:induction false} ImplodeExplode(c: char, s: string)
    ensures Implode([c], Explode(c, s)) == s
    decreases |s|
  {
    match IndexOf(s, c)
    case None =>
    case Some(p) =>
      var rest := Explode(c, s[p + 1..]);
      ImplodeExplode(c, s[p + 1..]);
      ImplodeCons([c], s[..p], rest);
      assert s == s[..p] + [c] + s[p + 1..];
  }

  /** Imploding pieces without the delimiter and exploding gives the pieces back. */
  lemma {:induction false} ExplodeImplode(c: char, pieces: seq<string>)
    requires |pieces| > 0
    requires forall i :: 0 <= i < |pieces| ==> c !in pieces[i]
    ensures Explode(c, Implode([c], pieces)) == pieces
    decreases |pieces|
  {
    if |pieces| > 1 {
      var rest := pieces[1..];
      ExplodeImplode(c, rest);
      ImplodeCons([c], pieces[0], rest);
      assert pieces == [pieces[0]] + rest;
      var s := Implode([c], pieces);
      var a := pieces[0];
      assert s == a + [c] + Implode([c], rest);
      assert s[|a|] == c;
      assert c !in s[..|a|] by { assert s[..|a|] == a; }
      assert s[|a| + 1..] == Implode([c], rest);
    } else {
      assert Implode([c], pieces) == pieces[0];
    }
  }

  /** `strtolower` (ASCII letters only, as in PHP 8.2). */
  function Lower(s: string): (r: string)
    ensures |r| == |s|
  {
    if s == [] then []
    else
      var c := s[0];
      [if 'A' <= c <= 'Z' then ((c as int) + 32) as char else c] + Lower(s[1..])
  }

  /* ---------------------------------------------------------------------
   * Loose comparison (`==`) in PHP 8
   * ------------------------------------------------------------------- */

  /** Truthiness of a string: everything but "" and "0". */
  predicate StringTruthy(s: string) {
    s != "" && s != "0"
  }

  /** `$v == null`. */
  predicate LooselyNull(v: Value) {
    match v
    case Null => true
    case Bool(b) => !b
    case Int(i) => i == 0
    case Float(t) => DecimalValue(t) == Some(0.0)
    case Str(s) => s == ""
    case Arr(es) => es == []
    case Object(_, _) => false
    case Resource(_) => false
  }

  /** `$v == w` for a string `w`. */
  predicate LooseEqualsString(v: Value, w: string) {
    match v
    case Null => w == ""
    case Bool(b) => b == StringTruthy(w)
    case Int(i) =>
      if IsNumericString(w) then DecimalValue(w) == Some(i as real) else IntToString(i) == w
    case Float(t) =>
      if IsNumericString(w) && IsNumericString(t) then DecimalValue(w) == DecimalValue(t) else t == w
    case Str(s) =>
      if IsNumericString(s) && IsNumericString(w) then DecimalValue(s) == DecimalValue(w) else s == w
    case Arr(_) => false
    case Object(_, _) => false
    case Resource(_) => false
  }

  /** `$v == n` for an integer `n`. */
  predicate LooseEqualsInt(v: Value, n: int) {
    match v
    case Null => n == 0
    case Bool(b) => b == (n != 0)
    case Int(i) => i == n
    case Float(t) => DecimalValue(t) == Some(n as real)
    case Str(s) => if IsNumericString(s) then DecimalValue(s) == Some(n as real) else s == IntToString(n)
    case Arr(_) => false
    case Object(_, _) => n == 1
    case Resource(id) => id == n
  }

  /** A non-empty, non-numeric string such as "AND" or "<=". */
  predicate IsWord(w: string) {
    w != "" && !IsNumericString(w)
  }

  /** `in_array($v, $words)` with loose comparison. */
  predicate LooselyIn(v: Value, words: seq<string>) {
    exists i :: 0 <= i < |words| && LooseEqualsString(v, words[i])
  }

  /** `$v == w` for a word `w`, as LooseEqualsWord shows it to be. */
  predicate EqualsWord(v: Value, w: string) {
    v == Str(w) || v == Bool(true) || v == Float(w)
  }

  /** `in_array($v, $words)` for a list of words, as InWordsIsLoose shows it to be. */
  predicate InWords(v: Value, words: seq<string>) {
    (|words| > 0 && v == Bool(true)) || (v.Str? && v.s in words) || (v.Float? && v.text in words)
  }

  lemma NatToStringIsNumeric(n: nat)
    ensures IsNumericString(NatToString(n))
  {
    var s := NatToString(n);
    assert s[0] != '-' && s[0] != '+' by { assert IsDigit(s[0]); }
  }

  lemma {:induction false} IntToStringIsNumeric(i: int)
    ensures IsNumericString(IntToString(i))
  {
    if i < 0 {
      var t := NatToString(-i);
      NatToStringIsNumeric(-i);
      assert t[0] != '-' && t[0] != '+' by { assert IsDigit(t[0]); }
      assert IntToString(i)[1..] == t;
    } else {
      NatToStringIsNumeric(i);
    }
  }

  /**
   * Against a word, loose equality is string equality, except that `true`
   * equals every word (a word is truthy) and a float equals a word that is
   * its text (as INF equals "INF"); an integer is compared as its decimal
   * text, which a word never is.
   */
  lemma {:induction false} LooseEqualsWord(v: Value, w: string)
    requires IsWord(w)
    ensures LooseEqualsString(v, w) <==> v == Str(w) || v == Bool(true) || v == Float(w)
  {
    match v
    case Int(i) => IntToStringIsNumeric(i);
    case Bool(b) => assert w != "0" by { assert IsNumericString("0"); }
    case _ =>
  }

  /* ---------------------------------------------------------------------
   * array_merge, array_unique, array_diff
   * ------------------------------------------------------------------- */

  /**
   * array_merge on the entries `es`, appended to `acc`: integer keys are
   * renumbered from `next` on, a string key overwrites an earlier entry with
   * that key in place or is appended.
   */
  function MergeInto(acc: seq<Entry>, es: seq<Entry>, next: int): seq<Entry>
    decreases es
  {
    if es == [] then acc
    else match es[0].key
      case IntKey(_) => MergeInto(acc + [Entry(IntKey(next), es[0].val)], es[1..], next + 1)
      case StrKey(_) => MergeInto(Put(acc, es[0].key, es[0].val), es[1..], next)
  }

  /** `array_merge($a, $b)`. */
  function ArrayMerge(a: seq<Entry>, b: seq<Entry>): seq<Entry> {
    MergeInto([], a + b, 0)
  }

  /** array_unique on `es`, dropping values already in `seen`; the first occurrence and its key stay. */
  function UniqueFrom(seen: seq<Value>, es: seq<Entry>): seq<Entry>
    decreases es
  {
    if es == [] then []
    else if es[0].val in seen then UniqueFrom(seen, es[1..])
    else [es[0]] + UniqueFrom(seen + [es[0].val], es[1..])
  }

  /** `array_unique($a)`, comparing values structurally. */
  function ArrayUnique(es: seq<Entry>): seq<Entry> {
    UniqueFrom([], es)
  }

  /** `array_diff($a, $b)`: the entries of `a`, keys kept, whose value is no value of `b`. */
  function ArrayDiff(a: seq<Entry>, b: seq<Entry>): seq<Entry> {
    if a == [] then []
    else if a[0].val in Values(b) then ArrayDiff(a[1..], b)
    else [a[0]] + ArrayDiff(a[1..], b)
  }

  /** No two entries of `es` hold the same value. */
  predicate DistinctValues(es: seq<Entry>) {
    forall i, j :: 0 <= i < j < |es| ==> es[i].val != es[j].val
  }

  /** Merging lists keeps every value, in order. */
  lemma {:induction false} MergeListValues(acc: seq<Entry>, es: seq<Entry>, next: int)
    requires IsList(es)
    ensures Values(MergeInto(acc, es, next)) == Values(acc) + Values(es)
    ensures IsList(acc) ==> IsList(MergeInto(acc, es, next))
    decreases es
  {
    if es != [] {
      var acc' := acc + [Entry(IntKey(next), es[0].val)];
      assert Values(acc') == Values(acc) + [es[0].val];
      MergeListValues(acc', es[1..], next + 1);
      assert Values(es) == [es[0].val] + Values(es[1..]);
    }
  }

  /** array_unique leaves values that are already distinct (and unseen) alone. */
  lemma {:induction false} UniqueDistinctValues(seen: seq<Value>, es: seq<Entry>)
    requires DistinctValues(es)
    requires forall i :: 0 <= i < |es| ==> es[i].val !in seen
    ensures UniqueFrom(seen, es) == es
    decreases es
  {
    if es != [] {
      var rest := es[1..];
      forall i | 0 <= i < |rest|
        ensures rest[i].val !in seen + [es[0].val]
      {
        assert rest[i] == es[i + 1];
      }
      UniqueDistinctValues(seen + [es[0].val], rest);
      assert es == [es[0]] + rest;
    }
  }

  /** array_diff distributes over concatenation of its first argument. */
  lemma {:induction false} DiffAppend(a: seq<Entry>, c: seq<Entry>, b: seq<Entry>)
    ensures ArrayDiff(a + c, b) == ArrayDiff(a, b) + ArrayDiff(c, b)
    decreases a
  {
    if a == [] {
      assert a + c == c;
    } else {
      assert (a + c)[0] == a[0];
      assert (a + c)[1..] == a[1..] + c;
      DiffAppend(a[1..], c, b);
    }
  }

  lemma {:induction false} DiffKeepsAll(a: seq<Entry>, b: seq<Entry>)
    requires forall i :: 0 <= i < |a| ==> a[i].val !in Values(b)
    ensures ArrayDiff(a, b) == a
    decreases a
  {
    if a != [] {
      DiffKeepsAll(a[1..], b);
      assert a == [a[0]] + a[1..];
    }
  }

  lemma {:induction false} DiffRemovesAll(a: seq<Entry>, b: seq<Entry>)
    requires forall i :: 0 <= i < |a| ==> a[i].val in Values(b)
    ensures ArrayDiff(a, b) == []
    decreases a
  {
    if a != [] {
      DiffRemovesAll(a[1..], b);
    }
  }

  /** Against a list of words, loose `in_array` is InWords. */
  lemma {:induction false} InWordsIsLoose(v: Value, words: seq<string>)
    requires forall i :: 0 <= i < |words| ==> IsWord(words[i])
    ensures InWords(v, words) <==> LooselyIn(v, words)
  {
    forall i | 0 <= i < |words|
      ensures LooseEqualsString(v, words[i]) <==> EqualsWord(v, words[i])
    {
      LooseEqualsWord(v, words[i]);
    }
    if InWords(v, words) {
      if v == Bool(true) {
        assert EqualsWord(v, words[0]);
      } else if v.Str? {
        var i :| 0 <= i < |words| && words[i] == v.s;
        assert EqualsWord(v, words[i]);
      } else {
        var i :| 0 <= i < |words| && words[i] == v.text;
        assert EqualsWord(v, words[i]);
      }
    }
  }

  /** A string that starts with neither a digit, a sign nor a point is a word. */
  lemma WordByFirstChar(w: string)
    requires |w| > 0 && !IsDigit(w[0]) && w[0] != '+' && w[0] != '-' && w[0] != '.'
    ensures IsWord(w)
  {
    match IndexOf(w, '.')
    case None =>
    case Some(p) => assert w[..p][0] == w[0];
  }
}
