/** Lua values as the bridge sees them through the C API. A table is the
    list of its entries in the order `lua_next` visits them; numbers are
    integers. */
module Lua {
  import opened Wrappers

  datatype LuaValue =
    | Nil
    | Bool(b: bool)
    | LightUserdata(ptr: nat)
    | Num(n: int)
    | Str(s: string)
    | Table(entries: seq<Entry>)
    | Function(fid: nat)
    | Userdata(uid: nat)
    | Thread(tid: nat)

  datatype Entry = Entry(key: LuaValue, value: LuaValue)

  /** The position of the first entry with key `k`, or -1. */
  function KeyPosition(es: seq<Entry>, k: LuaValue): (j: int)
    ensures -1 <= j < |es|
    ensures 0 <= j ==> es[j].key == k
    ensures j == -1 <==> forall i :: 0 <= i < |es| ==> es[i].key != k
  {
    if es == [] then -1
    else if es[0].key == k then 0
    else
      var j := KeyPosition(es[1..], k);
      assert forall i :: 1 <= i < |es| ==> es[1..][i - 1] == es[i];
      if j < 0 then -1 else j + 1
  }

  /** `lua_rawget`: the value stored under `k`, nil when there is none. */
  function Get(t: LuaValue, k: LuaValue): (v: LuaValue)
    requires t.Table?
    ensures v != Nil ==> exists i :: 0 <= i < |t.entries| && t.entries[i] == Entry(k, v)
  {
    var j := KeyPosition(t.entries, k);
    if j < 0 then Nil else t.entries[j].value
  }

  /** A look-up in a table whose first entry is `e`. */
  lemma GetCons(e: Entry, es: seq<Entry>, k: LuaValue)
    ensures Get(Table([e] + es), k) == if e.key == k then e.value else Get(Table(es), k)
  {
    assert ([e] + es)[1..] == es;
  }

  function EntryKeys(es: seq<Entry>): (ks: set<LuaValue>)
    ensures forall i :: 0 <= i < |es| ==> es[i].key in ks
    ensures forall k :: k in ks ==> exists i :: 0 <= i < |es| && es[i].key == k
  {
    set i | 0 <= i < |es| :: es[i].key
  }

  lemma EntryKeysCons(e: Entry, es: seq<Entry>)
    ensures EntryKeys([e] + es) == {e.key} + EntryKeys(es)
  {
    var r := [e] + es;
    assert r[0].key == e.key;
    forall k | k in EntryKeys(r) ensures k in {e.key} + EntryKeys(es) {
      var i :| 0 <= i < |r| && r[i].key == k;
      if i > 0 { assert es[i - 1].key == k; }
    }
    forall k | k in EntryKeys(es) ensures k in EntryKeys(r) {
      var i :| 0 <= i < |es| && es[i].key == k;
      assert r[i + 1].key == k;
    }
  }

  /** A Lua table holds each key at most once. */
  predicate UniqueKeys(es: seq<Entry>) {
    forall i, j :: 0 <= i < j < |es| ==> es[i].key != es[j].key
  }

  /** The name `lua_typename` gives each type; light userdata has none in the
      bridge's own table of names. */
  function Typename(v: LuaValue): (s: string)
    ensures s == "table" <==> v.Table?
    ensures s == "unknown" <==> v.LightUserdata?
  {
    match v
    case Nil => "nil"
    case Bool(_) => "boolean"
    case LightUserdata(_) => "unknown"
    case Num(_) => "number"
    case Str(_) => "string"
    case Table(_) => "table"
    case Function(_) => "function"
    case Userdata(_) => "userdata"
    case Thread(_) => "thread"
  }

  // ----- the length operator

  function NumberKeys(m: nat): (ks: set<LuaValue>)
    ensures forall i :: 1 <= i <= m ==> Num(i) in ks
    ensures forall k :: k in ks ==> k.Num? && 1 <= k.n <= m
  {
    set i | 1 <= i <= m :: Num(i)
  }

  lemma {:induction false} NumberKeysCount(m: nat)
    ensures |NumberKeys(m)| == m
  {
    if m == 0 {
      assert NumberKeys(0) == {};
    } else {
      NumberKeysCount(m - 1);
      assert NumberKeys(m) == NumberKeys(m - 1) + {Num(m)};
    }
  }

  /** A list of entries holds at least as many entries as distinct keys. */
  lemma {:induction false} KeySetBound(es: seq<Entry>, ks: set<LuaValue>)
    requires forall k :: k in ks ==> exists i :: 0 <= i < |es| && es[i].key == k
    ensures |ks| <= |es|
    decreases |es|
  {
    if es == [] {
      assert forall k :: k !in ks;
      assert ks == {};
    } else {
      var front := es[..|es| - 1];
      var rest := ks - {es[|es| - 1].key};
      forall k | k in rest ensures exists i :: 0 <= i < |front| && front[i].key == k {
        var i :| 0 <= i < |es| && es[i].key == k;
        assert front[i].key == k;
      }
      KeySetBound(front, rest);
    }
  }

  /** A table whose keys 1..m are all present has at least m entries. */
  lemma PresentBound(t: LuaValue, m: nat)
    requires t.Table?
    requires forall i :: 1 <= i <= m ==> Get(t, Num(i)) != Nil
    ensures m <= |t.entries|
  {
    NumberKeysCount(m);
    forall k | k in NumberKeys(m) ensures exists i :: 0 <= i < |t.entries| && t.entries[i].key == k {
      assert Get(t, Num(k.n)) != Nil;
    }
    KeySetBound(t.entries, NumberKeys(m));
  }

  function BorderFrom(t: LuaValue, k: nat): (n: nat)
    requires t.Table? && 1 <= k
    requires forall i :: 1 <= i < k ==> Get(t, Num(i)) != Nil
    ensures k - 1 <= n <= |t.entries|
    ensures forall i :: 1 <= i <= n ==> Get(t, Num(i)) != Nil
    ensures Get(t, Num(n + 1)) == Nil
    decreases |t.entries| + 1 - k
  {
    PresentBound(t, k - 1);
    if Get(t, Num(k)) == Nil then k - 1
    else
      PresentBound(t, k);
      BorderFrom(t, k + 1)
  }

  /** `lua_objlen` of a table: its first border, the n for which keys 1..n all
      hold values and key n+1 holds none. */
  function Length(t: LuaValue): (n: nat)
    requires t.Table?
    ensures n <= |t.entries|
    ensures forall i :: 1 <= i <= n ==> Get(t, Num(i)) != Nil
    ensures Get(t, Num(n + 1)) == Nil
  {
    BorderFrom(t, 1)
  }

  /** Only one n has the two properties of `Length`. */
  lemma LengthUnique(t: LuaValue, n: nat)
    requires t.Table?
    requires forall i :: 1 <= i <= n ==> Get(t, Num(i)) != Nil
    requires Get(t, Num(n + 1)) == Nil
    ensures Length(t) == n
  {
    var m := Length(t);
    var atM, atN := Get(t, Num(m + 1)), Get(t, Num(n + 1));
    assert m < n ==> atM != Nil;
    assert n < m ==> atN != Nil;
  }

  // ----- decimal text of numbers

  function DigitChar(d: int): char
    requires 0 <= d < 10
  {
    "0123456789"[d]
  }

  predicate IsDigit(c: char) {
    '0' <= c <= '9'
  }

  function NatToString(n: nat): (s: string)
    ensures |s| > 0 && forall i :: 0 <= i < |s| ==> IsDigit(s[i])
  {
    if n < 10 then [DigitChar(n)] else NatToString(n / 10) + [DigitChar(n % 10)]
  }

  /** The text Rust's `Display` gives an integer-valued number. */
  function IntToString(n: int): (s: string)
    ensures |s| > 0
  {
    if n < 0 then "-" + NatToString(-n) else NatToString(n)
  }

  function DigitValue(c: char): nat
    requires IsDigit(c)
  {
    c as int - '0' as int
  }

  function DigitsValue(s: string): nat
    requires forall i :: 0 <= i < |s| ==> IsDigit(s[i])
  {
    if s == [] then 0 else 10 * DigitsValue(s[..|s| - 1]) + DigitValue(s[|s| - 1])
  }

  /** The number written as an optional sign followed by decimal digits. */
  function ParseDecimal(s: string): (r: Option<int>)
    ensures r.Some? ==> |s| > 0
  {
    if |s| > 0 && (s[0] == '-' || s[0] == '+') then
      var digits := s[1..];
      if |digits| > 0 && forall i :: 0 <= i < |digits| ==> IsDigit(digits[i]) then
        var v: int := DigitsValue(digits);
        Some(if s[0] == '-' then -v else v)
      else None
    else if |s| > 0 && forall i :: 0 <= i < |s| ==> IsDigit(s[i]) then Some(DigitsValue(s))
    else None
  }

  /** The characters C's `isspace` accepts: space, tab, newline, vertical
      tab, form feed and carriage return. */
  predicate IsSpace(c: char) {
    c == ' ' || '\t' <= c <= '\r'
  }

  /** The text without its leading white space. */
  function TrimStart(s: string): (t: string)
    ensures |t| <= |s| && t == s[|s| - |t|..]
    ensures t != [] ==> !IsSpace(t[0])
  {
    if s != [] && IsSpace(s[0]) then TrimStart(s[1..]) else s
  }

  /** The text without its trailing white space. */
  function TrimEnd(s: string): (t: string)
    ensures |t| <= |s| && t == s[..|t|]
    ensures t != [] ==> !IsSpace(t[|t| - 1])
  {
    if s != [] && IsSpace(s[|s| - 1]) then TrimEnd(s[..|s| - 1]) else s
  }

  /** `lua_isnumber` and `lua_tonumber` on a string: white space around the
      number is skipped, and what is left must be an optional sign followed
      by decimal digits. */
  function StringToNumber(s: string): Option<int> {
    ParseDecimal(TrimEnd(TrimStart(s)))
  }

  lemma {:induction false} TrimStartSpaces(pre: string, s: string)
    requires forall i :: 0 <= i < |pre| ==> IsSpace(pre[i])
    requires s != [] ==> !IsSpace(s[0])
    ensures TrimStart(pre + s) == s
  {
    if pre != [] {
      assert (pre + s)[1..] == pre[1..] + s;
      TrimStartSpaces(pre[1..], s);
    } else {
      assert pre + s == s;
    }
  }

  lemma {:induction false} TrimEndSpaces(s: string, post: string)
    requires forall i :: 0 <= i < |post| ==> IsSpace(post[i])
    requires s != [] ==> !IsSpace(s[|s| - 1])
    ensures TrimEnd(s + post) == s
  {
    if post != [] {
      assert (s + post)[..|s + post| - 1] == s + post[..|post| - 1];
      TrimEndSpaces(s, post[..|post| - 1]);
    } else {
      assert s + post == s;
    }
  }

  /** White space around a string changes nothing about the number it is
      read as. */
  lemma PaddedNumber(pre: string, s: string, post: string)
    requires forall i :: 0 <= i < |pre| ==> IsSpace(pre[i])
    requires forall i :: 0 <= i < |post| ==> IsSpace(post[i])
    requires s != [] ==> !IsSpace(s[0]) && !IsSpace(s[|s| - 1])
    ensures StringToNumber(pre + s + post) == ParseDecimal(s)
  {
    assert pre + s + post == pre + (s + post);
    if s == [] {
      var blank := pre + post;
      assert pre + s + post == blank + [];
      forall i | 0 <= i < |blank| ensures IsSpace(blank[i]) {
        if i >= |pre| {
          assert blank[i] == post[i - |pre|];
        }
      }
      TrimStartSpaces(blank, []);
    } else {
      assert (s + post)[0] == s[0];
      TrimStartSpaces(pre, s + post);
      TrimEndSpaces(s, post);
    }
  }

  /** A number's text with white space around it reads back as the number,
      as `" 5 "` is the number 5. */
  lemma PaddedIntToString(n: int)
    ensures StringToNumber(" " + IntToString(n) + "\n") == Some(n)
  {
    var s := IntToString(n);
    IntToStringParses(n);
    assert !IsSpace(s[0]) && !IsSpace(s[|s| - 1]) by {
      if n < 0 {
        assert s[0] == '-' && s[|s| - 1] == NatToString(-n)[|NatToString(-n)| - 1];
      }
    }
    PaddedNumber(" ", s, "\n");
  }

  /** The text without white space reads as the same number. */
  lemma UnpaddedNumber(s: string)
    requires s != [] ==> !IsSpace(s[0]) && !IsSpace(s[|s| - 1])
    ensures StringToNumber(s) == ParseDecimal(s)
  {
    PaddedNumber([], s, []);
    assert [] + s + [] == s;
  }

  lemma {:induction false} NatToStringValue(n: nat)
    ensures DigitsValue(NatToString(n)) == n
  {
    if n >= 10 {
      var s := NatToString(n);
      NatToStringValue(n / 10);
      assert s[..|s| - 1] == NatToString(n / 10);
    }
  }

  /** Reading a number's text back gives the number. */
  lemma IntToStringParses(n: int)
    ensures ParseDecimal(IntToString(n)) == Some(n)
  {
    var s := IntToString(n);
    if n < 0 {
      var digits := NatToString(-n);
      NatToStringValue(-n);
      assert s[0] == '-' && s[1..] == digits;
    } else {
      NatToStringValue(n);
      assert IsDigit(s[0]);
    }
  }

  /** Distinct numbers have distinct texts. */
  lemma IntToStringInjective(m: int, n: int)
    requires IntToString(m) == IntToString(n)
    ensures m == n
  {
    IntToStringParses(m);
    IntToStringParses(n);
  }
}
