/**
 * Dynamic values shared by the backend (Python) and the frontend (JavaScript):
 * the JSON-shaped data a mail plan's flow, node data and template variables are
 * made of, with the truthiness rules of both languages and ordered dictionaries.
 */
module Values {

  datatype Option<+T> = None | Some(value: T)

  /** A JSON-like value. `Dec(units, scale)` is the decimal number units / 10^scale.
      A `Dict` keeps its fields in insertion order, as Python dicts and JS objects do. */
  datatype Value =
    | Null
    | Bool(b: bool)
    | Int(i: int)
    | Dec(units: int, scale: nat)
    | Str(s: string)
    | List(items: seq<Value>)
    | Dict(fields: seq<(string, Value)>)

  /** Python's `bool(v)`: None, False, 0, 0.0, "", [] and {} are false. */
  predicate Truthy(v: Value) {
    match v
    case Null => false
    case Bool(b) => b
    case Int(i) => i != 0
    case Dec(u, _) => u != 0
    case Str(s) => s != ""
    case List(xs) => xs != []
    case Dict(fs) => fs != []
  }

  /** JavaScript's `Boolean(v)`: every array and object is true. */
  predicate JsTruthy(v: Value) {
    match v
    case Null => false
    case Bool(b) => b
    case Int(i) => i != 0
    case Dec(u, _) => u != 0
    case Str(s) => s != ""
    case List(_) => true
    case Dict(_) => true
  }

  /** Python's `a or b` and JavaScript's `a || b`. */
  function Or(a: Value, b: Value): Value { if Truthy(a) then a else b }
  function JsOr(a: Value, b: Value): Value { if JsTruthy(a) then a else b }

  /** A value Python can use as a dict key or set element (lists and dicts cannot). */
  predicate Hashable(v: Value) { !v.List? && !v.Dict? }

  // ---------------------------------------------------------------------------
  // Ordered dictionaries: association lists whose keys appear once.

  predicate KeysUnique<K(==), V>(fs: seq<(K, V)>) {
    forall i, j :: 0 <= i < j < |fs| ==> fs[i].0 != fs[j].0
  }

  function Keys<K, V>(fs: seq<(K, V)>): (ks: seq<K>)
    ensures |ks| == |fs|
    ensures forall i :: 0 <= i < |fs| ==> ks[i] == fs[i].0
  {
    if fs == [] then [] else [fs[0].0] + Keys(fs[1..])
  }

  predicate HasKey<K(==), V>(fs: seq<(K, V)>, k: K) {
    exists i :: 0 <= i < |fs| && fs[i].0 == k
  }

  /** `d.get(k)`: the value of the first field named k. */
  function Find<K(==), V(==)>(fs: seq<(K, V)>, k: K): (r: Option<V>)
    ensures r.Some? <==> HasKey(fs, k)
  {
    if fs == [] then None
    else if fs[0].0 == k then Some(fs[0].1)
    else
      var r := Find(fs[1..], k);
      assert HasKey(fs[1..], k) ==> HasKey(fs, k) by {
        if HasKey(fs[1..], k) { var i :| 0 <= i < |fs[1..]| && fs[1..][i].0 == k; assert fs[i + 1].0 == k; }
      }
      assert HasKey(fs, k) ==> HasKey(fs[1..], k) by {
        if HasKey(fs, k) { var i :| 0 <= i < |fs| && fs[i].0 == k; assert i != 0; assert fs[1..][i - 1].0 == k; }
      }
      r
  }

  /** A value found under k is stored under k. */
  lemma {:induction false} FindIsEntry<K, V>(fs: seq<(K, V)>, k: K)
    requires Find(fs, k).Some?
    ensures exists i :: 0 <= i < |fs| && fs[i] == (k, Find(fs, k).value)
  {
    if fs[0].0 != k {
      FindIsEntry(fs[1..], k);
      var i :| 0 <= i < |fs[1..]| && fs[1..][i] == (k, Find(fs, k).value);
      assert fs[i + 1] == fs[1..][i];
    }
  }

  /** Looking up k finds the first field named k. */
  lemma {:induction false} FindAt<K, V>(fs: seq<(K, V)>, i: nat, k: K)
    requires i < |fs| && fs[i].0 == k && forall j :: 0 <= j < i ==> fs[j].0 != k
    ensures Find(fs, k) == Some(fs[i].1)
  {
    if i > 0 {
      assert fs[1..][i - 1] == fs[i];
      FindAt(fs[1..], i - 1, k);
    }
  }

  /** `d[k] = v`: an existing key keeps its position and takes the new value;
      a new key is appended at the end. */
  function Set<K(==), V>(fs: seq<(K, V)>, k: K, v: V): (r: seq<(K, V)>)
    ensures |r| == if HasKey(fs, k) then |fs| else |fs| + 1
  {
    if fs == [] then [(k, v)]
    else if fs[0].0 == k then [(k, v)] + fs[1..]
    else
      assert HasKey(fs, k) <==> HasKey(fs[1..], k) by { HasKeyTail(fs, k); }
      [fs[0]] + Set(fs[1..], k, v)
  }

  lemma HasKeyTail<K, V>(fs: seq<(K, V)>, k: K)
    requires fs != [] && fs[0].0 != k
    ensures HasKey(fs, k) <==> HasKey(fs[1..], k)
  {
    if HasKey(fs[1..], k) { var i :| 0 <= i < |fs[1..]| && fs[1..][i].0 == k; assert fs[i + 1].0 == k; }
    if HasKey(fs, k) { var i :| 0 <= i < |fs| && fs[i].0 == k; assert fs[1..][i - 1].0 == k; }
  }

  /** After `d[k] = v`, k maps to v and every other key keeps its value. */
  lemma {:induction false} SetFind<K, V>(fs: seq<(K, V)>, k: K, v: V, k': K)
    ensures Find(Set(fs, k, v), k') == if k' == k then Some(v) else Find(fs, k')
  {
    if fs != [] && fs[0].0 != k {
      SetFind(fs[1..], k, v, k');
      assert Set(fs, k, v)[1..] == Set(fs[1..], k, v);
    }
  }

  /** `d[k] = v` appends exactly when k is new. */
  lemma {:induction false} SetAppends<K, V>(fs: seq<(K, V)>, k: K, v: V)
    requires !HasKey(fs, k)
    ensures Set(fs, k, v) == fs + [(k, v)]
  {
    if fs != [] {
      HasKeyTail(fs, k);
      SetAppends(fs[1..], k, v);
    }
  }

  /** `d[k] = v` keeps keys unique and changes nothing but the value at k. */
  lemma {:induction false} SetKeys<K, V>(fs: seq<(K, V)>, k: K, v: V)
    ensures forall k' :: HasKey(Set(fs, k, v), k') <==> HasKey(fs, k') || k' == k
    ensures KeysUnique(fs) ==> KeysUnique(Set(fs, k, v))
  {
    if fs == [] {
      assert Set(fs, k, v)[0].0 == k;
    } else if fs[0].0 == k {
      var r := Set(fs, k, v);
      forall k' ensures HasKey(r, k') <==> HasKey(fs, k') || k' == k {
        if HasKey(r, k') { var i :| 0 <= i < |r| && r[i].0 == k'; assert fs[i].0 == k'; }
        if HasKey(fs, k') { var i :| 0 <= i < |fs| && fs[i].0 == k'; assert r[i].0 == k'; }
        assert r[0].0 == k;
      }
    } else {
      SetKeys(fs[1..], k, v);
      var t := Set(fs[1..], k, v);
      var r := Set(fs, k, v);
      assert r == [fs[0]] + t;
      forall k' ensures HasKey(r, k') <==> HasKey(fs, k') || k' == k {
        if k' == fs[0].0 { assert r[0].0 == k'; assert fs[0].0 == k'; }
        else {
          HasKeyTail(fs, k');
          HasKeyTail(r, k');
          assert r[1..] == t;
        }
      }
      if KeysUnique(fs) {
        assert KeysUnique(fs[1..]);
        assert KeysUnique(t);
        forall i, j | 0 <= i < j < |r| ensures r[i].0 != r[j].0 {
          if i == 0 {
            assert r[j] == t[j - 1];
            assert HasKey(t, r[j].0);
          } else {
            assert r[i] == t[i - 1] && r[j] == t[j - 1];
          }
        }
      }
    }
  }

  /** Python's `d.get(k)` on a dict (None when absent), JavaScript's `o[k]` on an
      object (undefined, here Null, when absent or when o is not an object). */
  function Get(v: Value, k: string): Value {
    if v.Dict? then (match Find(v.fields, k) case Some(x) => x case None => Null) else Null
  }

  /** The own enumerable fields of a JavaScript value, as `Object.keys`, `Object.assign`
      and spreading (`{...v}`) see them: an object's fields, an array's items or a
      string's characters under their indices, nothing for any other value. */
  function OwnFields(v: Value): (r: seq<(string, Value)>)
    ensures v.Dict? ==> r == v.fields
  {
    match v
    case Dict(fs) => fs
    case List(xs) => seq(|xs|, i requires 0 <= i < |xs| => (IntText(i), xs[i]))
    case Str(s) => seq(|s|, i requires 0 <= i < |s| => (IntText(i), Str([s[i]])))
    case _ => []
  }

  /** `os.environ.get(name, "0") in ("1", "true", "True")`: an unset variable reads as "0". */
  predicate FlagOn(env: Option<string>) {
    var v := if env.Some? then env.value else "0";
    v == "1" || v == "true" || v == "True"
  }

  // ---------------------------------------------------------------------------
  // Characters and strings.

  /** ASCII whitespace, the part of Python's `str.strip`, JavaScript's `trim` and `\s` modelled here. */
  predicate IsSpace(c: char) {
    c == ' ' || c == '\t' || c == '\n' || c == '\r' || c == '\U{000B}' || c == '\U{000C}'
  }

  function TrimStart(s: string): (r: string)
    ensures |r| <= |s| && r == s[|s| - |r|..]
    ensures r == [] || !IsSpace(r[0])
    ensures forall i :: 0 <= i < |s| - |r| ==> IsSpace(s[i])
  {
    if s != [] && IsSpace(s[0]) then TrimStart(s[1..]) else s
  }

  function TrimEnd(s: string): (r: string)
    ensures |r| <= |s| && r == s[..|r|]
    ensures r == [] || !IsSpace(r[|r| - 1])
    ensures forall i :: |r| <= i < |s| ==> IsSpace(s[i])
  {
    if s != [] && IsSpace(s[|s| - 1]) then TrimEnd(s[..|s| - 1]) else s
  }

  /** `s.strip()` / `s.trim()`. */
  function Trim(s: string): (r: string)
    ensures r == [] || (!IsSpace(r[0]) && !IsSpace(r[|r| - 1]))
  {
    TrimEnd(TrimStart(s))
  }

  /** Trimming only removes characters: one absent from s is absent from its trim. */
  lemma TrimKeepsOut(s: string, c: char)
    requires c !in s
    ensures c !in Trim(s)
  {
  }

  predicate IsTrimmed(s: string) { s == [] || (!IsSpace(s[0]) && !IsSpace(s[|s| - 1])) }

  lemma TrimOfTrimmed(s: string)
    requires IsTrimmed(s)
    ensures Trim(s) == s
  {
  }

  /** ASCII lower-casing, the part of `str.lower()` / `toLowerCase()` modelled here. */
  function LowerChar(c: char): char {
    if 'A' <= c <= 'Z' then (c as int + 32) as char else c
  }

  function Lower(s: string): (r: string)
    ensures |r| == |s| && forall i :: 0 <= i < |s| ==> r[i] == LowerChar(s[i])
  {
    seq(|s|, i requires 0 <= i < |s| => LowerChar(s[i]))
  }

  /** `needle in hay` / `hay.includes(needle)`. */
  predicate Contains(hay: string, needle: string)
    decreases |hay|
  {
    needle <= hay || (hay != [] && Contains(hay[1..], needle))
  }

  /** `s.indexOf(c)`: the first position of c, or None for -1. */
  function IndexOf(s: string, c: char): (r: Option<nat>)
    ensures r.Some? ==> r.value < |s| && s[r.value] == c && c !in s[..r.value]
    ensures r.None? ==> c !in s
  {
    if s == [] then None
    else if s[0] == c then Some(0)
    else match IndexOf(s[1..], c)
      case None => None
      case Some(i) => assert s[1..][..i] == s[1..i + 1]; Some(i + 1)
  }

  /** `s.split(sep)` with a one-character separator: the pieces between separators. */
  function Split(s: string, sep: char): (r: seq<string>)
    ensures |r| >= 1
    ensures forall i :: 0 <= i < |r| ==> sep !in r[i]
    decreases |s|
  {
    match IndexOf(s, sep)
    case None => [s]
    case Some(i) => [s[..i]] + Split(s[i + 1..], sep)
  }

  /** `"sep".join(parts)`. */
  function Join(parts: seq<string>, sep: string): string {
    if parts == [] then ""
    else if |parts| == 1 then parts[0]
    else parts[0] + sep + Join(parts[1..], sep)
  }

  /** Decimal text of an integer, as both `str(i)` and `String(i)` print it. */
  function DigitsText(n: nat): (r: string)
    ensures r != []
    decreases n
  {
    if n < 10 then [('0' as int + n) as char] else DigitsText(n / 10) + [('0' as int + n % 10) as char]
  }

  function IntText(i: int): string {
    if i < 0 then "-" + DigitsText(-i) else DigitsText(i)
  }

  /** A character absent from s is absent from every piece of its split. */
  lemma {:induction false} SplitAvoids(s: string, sep: char, c: char)
    requires c !in s
    ensures forall i :: 0 <= i < |Split(s, sep)| ==> c !in Split(s, sep)[i]
    decreases |s|
  {
    match IndexOf(s, sep)
    case None =>
    case Some(i) =>
      assert forall x :: x in s[..i] ==> x in s;
      assert forall x :: x in s[i + 1..] ==> x in s;
      SplitAvoids(s[i + 1..], sep, c);
  }

  /** The first c in a + [c] + b is the one after a, when a has none. */
  lemma {:induction false} IndexOfAfter(a: string, c: char, b: string)
    requires c !in a
    ensures IndexOf(a + [c] + b, c) == Some(|a|)
  {
    if a != [] {
      assert (a + [c] + b)[1..] == a[1..] + [c] + b;
      IndexOfAfter(a[1..], c, b);
    }
  }

  /** A character in neither the parts nor the separator is not in the join. */
  lemma {:induction false} JoinAvoids(parts: seq<string>, sep: string, c: char)
    requires c !in sep && forall i :: 0 <= i < |parts| ==> c !in parts[i]
    ensures c !in Join(parts, sep)
  {
    if |parts| > 1 { JoinAvoids(parts[1..], sep, c); }
  }

  /** Splitting at sep undoes joining with sep when no part contains sep. */
  lemma {:induction false} SplitJoin(parts: seq<string>, sep: char)
    requires |parts| >= 1 && forall i :: 0 <= i < |parts| ==> sep !in parts[i]
    ensures Split(Join(parts, [sep]), sep) == parts
  {
    if |parts| > 1 {
      var rest := Join(parts[1..], [sep]);
      assert Join(parts, [sep]) == parts[0] + [sep] + rest;
      IndexOfAfter(parts[0], sep, rest);
      var j := Join(parts, [sep]);
      assert j[..|parts[0]|] == parts[0];
      assert j[|parts[0]| + 1..] == rest;
      SplitJoin(parts[1..], sep);
    } else {
      assert Join(parts, [sep]) == parts[0];
    }
  }
}
