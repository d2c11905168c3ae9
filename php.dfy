/**
 * The slice of PHP's value model that the database layer and the DOM node rely on:
 * option and error wrappers for `null` and exceptions, scalar and array values, and
 * PHP's ordered arrays with their assignment (`$a[$k] = $v`), append (`$a[] = $v`)
 * and `unset` semantics. Integer-to-string and `(int)` conversions are written out
 * because placeholders and query options go through them.
 */
module Php {

  datatype Option<+T> = None | Some(value: T)

  /** A PHP exception, identified by its message. */
  datatype Error = Exception(message: string)

  datatype Result<+T> = Success(value: T) | Failure(error: Error)

  /** The result of a call whose only normal result is `$this`. */
  datatype Outcome = Pass | Fail(error: Error)

  /**
   * An array key. PHP stores a decimal-integer string key such as "7" as the integer
   * key 7, so a `StrKey` is meant to hold only strings that are not of that form.
   */
  datatype Key = IntKey(i: int) | StrKey(s: string)

  /** A PHP value as far as the modelled code inspects it. */
  datatype Value =
    | Null
    | Bool(b: bool)
    | Int(i: int)
    | Float(x: real)
    | Str(s: string)
    | Arr(entries: seq<(Key, Value)>)

  /** An ordered dictionary: PHP's array, keys in insertion order. */
  type Dict<K, V> = seq<(K, V)>

  type PhpArray = Dict<Key, Value>

  // ---------------------------------------------------------------------------
  // Ordered dictionaries

  function Keys<K, V>(d: Dict<K, V>): seq<K>
  {
    seq(|d|, i requires 0 <= i < |d| => d[i].0)
  }

  function Values<K, V>(d: Dict<K, V>): seq<V>
  {
    seq(|d|, i requires 0 <= i < |d| => d[i].1)
  }

  /** Every real PHP array has this property: no key occurs twice. */
  ghost predicate DistinctKeys<K, V>(d: Dict<K, V>) {
    forall i, j :: 0 <= i < j < |d| ==> d[i].0 != d[j].0
  }

  /** `$d[$k]` when the key exists (the first entry with that key). */
  function Get<K(==), V>(d: Dict<K, V>, k: K): (r: Option<V>)
    ensures r.Some? <==> k in Keys(d)
  {
    if d == [] then None
    else if d[0].0 == k then
      assert Keys(d)[0] == k;
      Some(d[0].1)
    else
      assert Keys(d) == [d[0].0] + Keys(d[1..]);
      Get(d[1..], k)
  }

  /**
   * `$d[$k] = $v`: an existing key keeps its position (and the key list is unchanged),
   * a new key is appended.
   */
  function Put<K(==), V>(d: Dict<K, V>, k: K, v: V): (r: Dict<K, V>)
    ensures k in Keys(d) ==> Keys(r) == Keys(d)
    ensures k !in Keys(d) ==> r == d + [(k, v)]
  {
    if d == [] then [(k, v)]
    else if d[0].0 == k then
      assert Keys([(k, v)] + d[1..]) == [k] + Keys(d[1..]);
      assert Keys(d) == [d[0].0] + Keys(d[1..]);
      [(k, v)] + d[1..]
    else
      var rest := Put(d[1..], k, v);
      assert Keys(d) == [d[0].0] + Keys(d[1..]);
      assert Keys([d[0]] + rest) == [d[0].0] + Keys(rest);
      assert k !in Keys(d) ==> [d[0]] + (d[1..] + [(k, v)]) == d + [(k, v)];
      [d[0]] + rest
  }

  /** After `$d[$k] = $v`, `$d[$k]` is `$v` and every other key reads as before. */
  lemma {:induction false} PutGet<K, V>(d: Dict<K, V>, k: K, v: V)
    ensures Get(Put(d, k, v), k) == Some(v)
    ensures forall j :: j != k ==> Get(Put(d, k, v), j) == Get(d, j)
  {
    if d != [] && d[0].0 != k {
      PutGet(d[1..], k, v);
      var r := Put(d, k, v);
      assert r == [d[0]] + Put(d[1..], k, v);
      assert r[1..] == Put(d[1..], k, v);
    } else if d != [] {
      assert Put(d, k, v)[1..] == d[1..];
    }
  }

  /** `unset($d[$k])`: the key disappears, everything else keeps its order. */
  function Remove<K(==), V>(d: Dict<K, V>, k: K): (r: Dict<K, V>)
    ensures k !in Keys(d) ==> r == d
    ensures |r| <= |d|
  {
    if d == [] then []
    else if d[0].0 == k then
      assert Keys(d)[0] == k;
      Remove(d[1..], k)
    else
      assert Keys(d) == [d[0].0] + Keys(d[1..]);
      [d[0]] + Remove(d[1..], k)
  }

  /** After `unset($d[$k])`, `$d[$k]` is not there and every other key reads as before. */
  lemma {:induction false} RemoveGet<K, V>(d: Dict<K, V>, k: K)
    ensures Get(Remove(d, k), k) == None
    ensures forall j :: j != k ==> Get(Remove(d, k), j) == Get(d, j)
  {
    if d != [] {
      RemoveGet(d[1..], k);
      if d[0].0 != k {
        assert ([d[0]] + Remove(d[1..], k))[1..] == Remove(d[1..], k);
      }
    }
  }

  /** The dictionary after `foreach ($src as $k => $v) { $d[$k] = $v; }`. */
  function PutAll<K(==), V>(d: Dict<K, V>, src: Dict<K, V>): Dict<K, V>
  {
    if src == [] then d
    else Put(PutAll(d, src[..|src| - 1]), src[|src| - 1].0, src[|src| - 1].1)
  }

  /** The value that the last entry with key `k` carries in `src`. */
  function LastValue<K(==), V>(src: Dict<K, V>, k: K): V
    requires k in Keys(src)
  {
    var n := |src| - 1;
    if src[n].0 == k then src[n].1
    else
      assert Keys(src[..n]) == Keys(src)[..n];
      LastValue(src[..n], k)
  }

  /**
   * Copying a dictionary entry by entry: a key that `src` mentions ends up with the
   * value of its last occurrence in `src`; every other key keeps its value.
   */
  lemma {:induction false} PutAllGet<K(!new), V>(d: Dict<K, V>, src: Dict<K, V>, k: K)
    ensures Get(PutAll(d, src), k) ==
      if k in Keys(src) then Some(LastValue(src, k)) else Get(d, k)
  {
    if src != [] {
      var n := |src| - 1;
      assert Keys(src[..n]) == Keys(src)[..n];
      assert Keys(src) == Keys(src[..n]) + [src[n].0];
      PutAllGet(d, src[..n], k);
      PutGet(PutAll(d, src[..n]), src[n].0, src[n].1);
    }
  }

  /** Copying a PHP array (distinct keys) into an empty one reproduces it. */
  lemma {:induction false} PutAllCopies<K(!new), V>(src: Dict<K, V>)
    requires DistinctKeys(src)
    ensures PutAll([], src) == src
  {
    if src != [] {
      var n := |src| - 1;
      var front := src[..n];
      assert DistinctKeys(front);
      PutAllCopies(front);
      assert src[n].0 !in Keys(front) by {
        forall j | 0 <= j < n ensures Keys(front)[j] != src[n].0 {
          assert front[j] == src[j];
        }
      }
      assert PutAll([], src) == Put(front, src[n].0, src[n].1);
      assert front + [src[n]] == src;
    }
  }

  /**
   * The key `$a[] = $v` uses: one more than the largest integer key, and never
   * below 0 (PHP 7 starts the counter at 0 and only raises it).
   */
  function NextIndex(a: PhpArray): (r: int)
    ensures r >= 0
  {
    if a == [] then 0
    else
      var n := |a| - 1;
      var before := NextIndex(a[..n]);
      match a[n].0
      case IntKey(i) => if i + 1 > before then i + 1 else before
      case StrKey(_) => before
  }

  /** Every integer key already in the array is below the next index. */
  lemma {:induction false} NextIndexIsFresh(a: PhpArray)
    ensures forall i :: IntKey(i) in Keys(a) ==> i < NextIndex(a)
  {
    if a != [] {
      var n := |a| - 1;
      NextIndexIsFresh(a[..n]);
      assert Keys(a) == Keys(a[..n]) + [a[n].0];
    }
  }

  /** `$a[] = $v`: appends `$v` under the next integer key. */
  function Push(a: PhpArray, v: Value): PhpArray {
    a + [(IntKey(NextIndex(a)), v)]
  }

  /** The array after `foreach ($vs as $v) { $a[] = $v; }`. */
  function PushAll(a: PhpArray, vs: seq<Value>): PhpArray
  {
    if vs == [] then a
    else Push(PushAll(a, vs[..|vs| - 1]), vs[|vs| - 1])
  }

  /** A PHP list: the values under the keys 0, 1, 2, ... */
  function ListOf(vs: seq<Value>): (r: PhpArray)
    ensures |r| == |vs|
    ensures forall i :: 0 <= i < |vs| ==> r[i] == (IntKey(i), vs[i])
  {
    if vs == [] then [] else ListOf(vs[..|vs| - 1]) + [(IntKey(|vs| - 1), vs[|vs| - 1])]
  }

  /** Appending to an empty array builds a list numbered from 0. */
  lemma {:induction false} PushAllBuildsList(vs: seq<Value>)
    ensures PushAll([], vs) == ListOf(vs)
    ensures NextIndex(ListOf(vs)) == |vs|
  {
    if vs != [] {
      var n := |vs| - 1;
      PushAllBuildsList(vs[..n]);
      var prefix := ListOf(vs[..n]);
      assert ListOf(vs) == prefix + [(IntKey(n), vs[n])];
      assert ListOf(vs)[..n] == prefix;
    }
  }

  /**
   * Appending to any array adds exactly the appended values, in order, after the
   * existing entries.
   */
  lemma {:induction false} PushAllValues(a: PhpArray, vs: seq<Value>)
    ensures Values(PushAll(a, vs)) == Values(a) + vs
  {
    if vs != [] {
      var n := |vs| - 1;
      var before := PushAll(a, vs[..n]);
      PushAllValues(a, vs[..n]);
      assert PushAll(a, vs) == Push(before, vs[n]);
      var entry := (IntKey(NextIndex(before)), vs[n]);
      ValuesAppend(before, entry);
      calc {
        Values(PushAll(a, vs));
        Values(before + [entry]);
        Values(before) + [vs[n]];
        Values(a) + vs[..n] + [vs[n]];
        { assert vs[..n] + [vs[n]] == vs; }
        Values(a) + vs;
      }
    }
  }

  /** Appending never disturbs the entries already present. */
  lemma {:induction false} PushAllKeepsPrefix(a: PhpArray, vs: seq<Value>)
    ensures |PushAll(a, vs)| == |a| + |vs|
    ensures PushAll(a, vs)[..|a|] == a
  {
    if vs != [] {
      PushAllKeepsPrefix(a, vs[..|vs| - 1]);
    }
  }

  lemma ValuesAppend<K, V>(d: Dict<K, V>, e: (K, V))
    ensures Values(d + [e]) == Values(d) + [e.1]
  {
    var r := Values(d + [e]);
    assert forall i :: 0 <= i < |r| ==> r[i] == (Values(d) + [e.1])[i];
  }

  // ---------------------------------------------------------------------------
  // Numbers as text

  predicate IsDigit(c: char) { '0' <= c <= '9' }

  predicate AllDigits(s: string) { forall i :: 0 <= i < |s| ==> IsDigit(s[i]) }

  function DigitChar(d: nat): char
    requires d < 10
  {
    "0123456789"[d]
  }

  function DigitValue(c: char): nat
    requires IsDigit(c)
  {
    (c as int - '0' as int) as nat
  }

  /** PHP's decimal text of a non-negative integer. */
  function NatToString(n: nat): (r: string)
    ensures |r| > 0 && AllDigits(r)
    ensures r[0] == '0' ==> n == 0
  {
    if n < 10 then [DigitChar(n)] else NatToString(n / 10) + [DigitChar(n % 10)]
  }

  /** PHP's decimal text of an integer (`(string)$i`, `'$' . $i`). */
  function IntToString(i: int): (r: string)
    ensures |r| > 0
    ensures i >= 0 <==> AllDigits(r)
  {
    if i < 0 then
      var r := "-" + NatToString(-i);
      assert !IsDigit(r[0]);
      r
    else NatToString(i)
  }

  /** The value of a string of decimal digits. */
  function ParseDigits(s: string): nat
    requires AllDigits(s)
  {
    if s == [] then 0 else 10 * ParseDigits(s[..|s| - 1]) + DigitValue(s[|s| - 1])
  }

  lemma {:induction false} ParseNatToString(n: nat)
    ensures ParseDigits(NatToString(n)) == n
  {
    if n >= 10 {
      var s := NatToString(n);
      ParseNatToString(n / 10);
      assert s[..|s| - 1] == NatToString(n / 10);
    }
  }

  /** The key's text, as PHP converts it when it is concatenated. */
  function KeyToString(k: Key): string {
    match k
    case IntKey(i) => IntToString(i)
    case StrKey(s) => s
  }

  // ---------------------------------------------------------------------------
  // (int) casts

  predicate IsSpace(c: char) { c == ' ' || c == '\t' || c == '\n' || c == '\r' || c as int == 11 || c as int == 12 }

  function SkipSpace(s: string): string
  {
    if s != [] && IsSpace(s[0]) then SkipSpace(s[1..]) else s
  }

  /** The longest prefix of `s` made of digits. */
  function DigitPrefix(s: string): (r: string)
    ensures AllDigits(r)
  {
    if s != [] && IsDigit(s[0]) then [s[0]] + DigitPrefix(s[1..]) else []
  }

  /** `(int)$s` for a string: leading white space, an optional sign, then digits. */
  function LeadingInt(s: string): int {
    var t := SkipSpace(s);
    if t != [] && t[0] == '-' then -(ParseDigits(DigitPrefix(t[1..])) as int)
    else if t != [] && t[0] == '+' then ParseDigits(DigitPrefix(t[1..]))
    else ParseDigits(DigitPrefix(t))
  }

  /** Truncation toward zero, as `(int)` does to a float. */
  function Truncate(x: real): int {
    if x >= 0.0 then x.Floor else -((-x).Floor)
  }

  /** PHP's `(int)` cast. */
  function IntCast(v: Value): int {
    match v
    case Null => 0
    case Bool(b) => if b then 1 else 0
    case Int(i) => i
    case Float(x) => Truncate(x)
    case Str(s) => LeadingInt(s)
    case Arr(es) => if es == [] then 0 else 1
  }

  /** `(int)` gives back the integer whose decimal text it is handed. */
  lemma IntCastOfIntString(i: int)
    ensures IntCast(Str(IntToString(i))) == i
  {
    var n: nat := if i < 0 then -i else i;
    var digits := NatToString(n);
    DigitsArePrefix(digits);
    ParseNatToString(n);
    var text := IntToString(i);
    if i < 0 {
      assert text == "-" + digits;
      assert text[0] == '-' && !IsSpace(text[0]);
      assert SkipSpace(text) == text;
      assert text[1..] == digits;
      assert LeadingInt(text) == -(ParseDigits(digits) as int);
    } else {
      assert text == digits;
      assert LeadingInt(text) == ParseDigits(digits);
    }
  }

  lemma DigitsArePrefix(s: string)
    requires AllDigits(s) && s != []
    ensures SkipSpace(s) == s && DigitPrefix(s) == s
  {
    assert !IsSpace(s[0]);
    DigitPrefixOfDigits(s);
  }

  lemma {:induction false} DigitPrefixOfDigits(s: string)
    requires AllDigits(s)
    ensures DigitPrefix(s) == s
  {
    if s != [] {
      DigitPrefixOfDigits(s[1..]);
      assert [s[0]] + s[1..] == s;
    }
  }

  /** `isset($a[$k])`: the key exists and its value is not null. */
  predicate Isset(a: PhpArray, k: Key) {
    Get(a, k).Some? && !Get(a, k).value.Null?
  }
}
