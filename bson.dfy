/** The BSON values the bridge exchanges with the database driver: the value
    kinds, ordered documents whose `insert` replaces a value in place or
    appends a new field, and the hexadecimal form of object ids.

    Lua numbers are modelled as integers, so `Double` holds an
    integer-valued double. */
module Bson {
  import opened Wrappers

  type byte = x: int | 0 <= x < 256

  const I32_MIN: int := -0x8000_0000
  const I32_MAX: int := 0x7fff_ffff
  const I64_MIN: int := -0x8000_0000_0000_0000
  const I64_MAX: int := 0x7fff_ffff_ffff_ffff

  type i32 = x: int | I32_MIN <= x <= I32_MAX
  type i64 = x: int | I64_MIN <= x <= I64_MAX

  /** Rust's `as i64` from a float: out-of-range values saturate. */
  function SaturateI64(x: int): (r: i64)
    ensures I64_MIN <= x <= I64_MAX ==> r == x
    ensures x < I64_MIN ==> r == I64_MIN
    ensures x > I64_MAX ==> r == I64_MAX
  {
    if x < I64_MIN then I64_MIN else if x > I64_MAX then I64_MAX else x
  }

  /** The twelve bytes of an ObjectId. */
  type ObjectIdBytes = s: seq<byte> | |s| == 12 witness [0, 0, 0, 0, 0, 0, 0, 0, 0, 0, 0, 0]

  datatype BsonValue =
    | Null
    | Undefined
    | Boolean(b: bool)
    | Int32(int32: i32)
    | Int64(int64: i64)
    /** An integer-valued double (see the module comment). */
    | Double(double: int)
    | String(s: string)
    | Document(fields: Doc)
    | Array(items: seq<BsonValue>)
    | ObjectId(oid: ObjectIdBytes)
    /** Milliseconds since the Unix epoch. */
    | DateTime(millis: i64)
    | Binary(bytes: seq<byte>)
    /** Every other BSON kind (timestamps, regular expressions, decimals,
        code, symbols, min/max keys, ...). */
    | Other(kind: string)

  datatype Field = Field(key: string, value: BsonValue)

  /** A document: fields in insertion order. */
  type Doc = seq<Field>

  function Keys(d: Doc): (ks: set<string>)
    ensures forall i :: 0 <= i < |d| ==> d[i].key in ks
    ensures forall k :: k in ks ==> exists i :: 0 <= i < |d| && d[i].key == k
  {
    set i | 0 <= i < |d| :: d[i].key
  }

  /** `Document::get`: the value of the first field named `key`. */
  function Lookup(d: Doc, key: string): (r: Option<BsonValue>)
    ensures r.Some? <==> key in Keys(d)
    ensures r.Some? ==> exists i :: 0 <= i < |d| && d[i] == Field(key, r.value)
  {
    if d == [] then None
    else if d[0].key == key then Some(d[0].value)
    else
      var r := Lookup(d[1..], key);
      assert r.Some? ==> exists i :: 0 <= i < |d| && d[i] == Field(key, r.value) by {
        if r.Some? {
          var i :| 0 <= i < |d[1..]| && d[1..][i] == Field(key, r.value);
          assert d[i + 1] == Field(key, r.value);
        }
      }
      assert key in Keys(d) ==> key in Keys(d[1..]) by {
        if key in Keys(d) {
          var i :| 0 <= i < |d| && d[i].key == key;
          assert d[1..][i - 1].key == key;
        }
      }
      r
  }

  /** The keys of a non-empty document: its first key and the rest's. */
  lemma KeysCons(d: Doc)
    requires d != []
    ensures Keys(d) == {d[0].key} + Keys(d[1..])
  {
    forall k | k in Keys(d) ensures k in {d[0].key} + Keys(d[1..]) {
      var i :| 0 <= i < |d| && d[i].key == k;
      if i > 0 { assert d[1..][i - 1].key == k; }
    }
  }

  /** `Document::insert`: an existing field keeps its position and takes the
      new value; a new key is appended. */
  function Insert(d: Doc, key: string, value: BsonValue): (r: Doc)
    ensures |r| == if key in Keys(d) then |d| else |d| + 1
    ensures Keys(r) == Keys(d) + {key}
  {
    if d == [] then
      KeysCons([Field(key, value)]);
      [Field(key, value)]
    else
      KeysCons(d);
      if d[0].key == key then
        var r := [Field(key, value)] + d[1..];
        KeysCons(r);
        assert r[1..] == d[1..];
        r
      else
        var r := [d[0]] + Insert(d[1..], key, value);
        KeysCons(r);
        assert r[1..] == Insert(d[1..], key, value);
        r
  }

  predicate DistinctKeys(d: Doc) {
    forall i, j :: 0 <= i < j < |d| ==> d[i].key != d[j].key
  }

  /** Looking up in a document with one more field at the end: the earlier
      fields win; the new one answers only for a key they do not hold. */
  lemma {:induction false} LookupSnoc(d: Doc, f: Field, key: string)
    ensures Lookup(d + [f], key) ==
            if key in Keys(d) then Lookup(d, key) else if f.key == key then Some(f.value) else None
    decreases |d|
  {
    if d == [] {
      assert [f][1..] == [];
    } else {
      assert (d + [f])[1..] == d[1..] + [f];
      KeysCons(d);
      LookupSnoc(d[1..], f, key);
    }
  }

  /** After an insert, the key holds the inserted value and every other key
      holds what it held before. */
  lemma {:induction false} LookupInsert(d: Doc, key: string, value: BsonValue, other: string)
    ensures Lookup(Insert(d, key, value), other) ==
            if other == key then Some(value) else Lookup(d, other)
  {
    if d != [] && d[0].key != key {
      LookupInsert(d[1..], key, value, other);
    }
  }

  /** Inserting a key that is not present appends it. */
  lemma {:induction false} InsertFresh(d: Doc, key: string, value: BsonValue)
    requires key !in Keys(d)
    ensures Insert(d, key, value) == d + [Field(key, value)]
  {
    if d != [] {
      KeysCons(d);
      InsertFresh(d[1..], key, value);
      assert [d[0]] + (d[1..] + [Field(key, value)]) == d + [Field(key, value)];
    }
  }

  // ----- hexadecimal text (the `hex` crate and ObjectId::to_hex / parse_str)

  const LowerHexDigits: string := "0123456789abcdef"

  function HexDigit(n: int): (c: char)
    requires 0 <= n < 16
  {
    LowerHexDigits[n]
  }

  /** The value of one hexadecimal digit; both letter cases are accepted. */
  function HexValue(c: char): (r: Option<int>)
    ensures r.Some? ==> 0 <= r.value < 16
  {
    if '0' <= c <= '9' then Some(c as int - '0' as int)
    else if 'a' <= c <= 'f' then Some(c as int - 'a' as int + 10)
    else if 'A' <= c <= 'F' then Some(c as int - 'A' as int + 10)
    else None
  }

  function ToLowerHex(c: char): char {
    if 'A' <= c <= 'F' then (c as int - 'A' as int + 'a' as int) as char else c
  }

  /** `hex::encode`: two lower-case digits per byte, high nibble first. */
  function HexEncode(bytes: seq<byte>): (s: string)
    ensures |s| == 2 * |bytes|
  {
    if bytes == [] then ""
    else [HexDigit(bytes[0] / 16), HexDigit(bytes[0] % 16)] + HexEncode(bytes[1..])
  }

  /** The encoding uses lower-case hex digits only. */
  lemma {:induction false} HexEncodeLower(bytes: seq<byte>)
    ensures forall i :: 0 <= i < |HexEncode(bytes)| ==> HexEncode(bytes)[i] in LowerHexDigits
  {
    if bytes != [] {
      HexEncodeLower(bytes[1..]);
      var rest := HexEncode(bytes[1..]);
      assert HexEncode(bytes) == [HexDigit(bytes[0] / 16), HexDigit(bytes[0] % 16)] + rest;
      assert forall i :: 2 <= i < |HexEncode(bytes)| ==> HexEncode(bytes)[i] == rest[i - 2];
    }
  }

  /** `hex::decode`: an odd length or any non-hex character is an error. */
  function HexDecode(s: string): (r: Option<seq<byte>>)
    ensures r.Some? ==> |s| == 2 * |r.value|
  {
    if s == [] then Some([])
    else if |s| == 1 then None
    else
      var hi, lo, rest := HexValue(s[0]), HexValue(s[1]), HexDecode(s[2..]);
      if hi.Some? && lo.Some? && rest.Some? then Some([hi.value * 16 + lo.value] + rest.value)
      else None
  }

  /** Text that decodes holds hex digits only. */
  lemma {:induction false} HexDecodeDigits(s: string)
    ensures HexDecode(s).Some? ==> forall i :: 0 <= i < |s| ==> HexValue(s[i]).Some?
  {
    if HexDecode(s).Some? && s != [] {
      HexDecodeDigits(s[2..]);
      assert forall i :: 2 <= i < |s| ==> s[i] == s[2..][i - 2];
    }
  }

  lemma HexDigitValue(n: int)
    requires 0 <= n < 16
    ensures HexValue(HexDigit(n)) == Some(n)
  {
  }

  lemma NibbleSplit(b: byte)
    ensures 0 <= b / 16 < 16 && 0 <= b % 16 < 16 && b / 16 * 16 + b % 16 == b
  {
  }

  /** One step of `HexDecode` on two leading characters. */
  lemma DecodeStep(c0: char, c1: char, t: string)
    ensures HexDecode([c0, c1] + t) ==
      (if HexValue(c0).Some? && HexValue(c1).Some? && HexDecode(t).Some?
       then Some([HexValue(c0).value * 16 + HexValue(c1).value] + HexDecode(t).value) else None)
  {
    assert ([c0, c1] + t)[2..] == t;
  }

  /** Decoding undoes encoding. */
  lemma {:induction false} HexRoundTrip(bytes: seq<byte>)
    ensures HexDecode(HexEncode(bytes)) == Some(bytes)
  {
    if bytes != [] {
      var hi, lo := bytes[0] / 16, bytes[0] % 16;
      NibbleSplit(bytes[0]);
      HexDigitValue(hi);
      HexDigitValue(lo);
      HexRoundTrip(bytes[1..]);
      DecodeStep(HexDigit(hi), HexDigit(lo), HexEncode(bytes[1..]));
      assert [bytes[0]] + bytes[1..] == bytes;
    }
  }

  lemma DigitOfValue(c: char)
    requires HexValue(c).Some?
    ensures HexDigit(HexValue(c).value) == ToLowerHex(c)
  {
  }

  /** Encoding what was decoded gives back the text in lower case. */
  lemma {:induction false} HexDecodeEncode(s: string)
    requires HexDecode(s).Some?
    ensures HexEncode(HexDecode(s).value) == seq(|s|, i requires 0 <= i < |s| => ToLowerHex(s[i]))
  {
    if s != [] {
      var hi, lo := HexValue(s[0]).value, HexValue(s[1]).value;
      HexDecodeEncode(s[2..]);
      var b := hi * 16 + lo;
      assert b / 16 == hi && b % 16 == lo;
      DigitOfValue(s[0]);
      DigitOfValue(s[1]);
      assert HexDecode(s).value == [b] + HexDecode(s[2..]).value;
    }
  }

  /** `ObjectId::to_hex`. */
  function ObjectIdToHex(o: ObjectIdBytes): (s: string)
    ensures |s| == 24
  {
    HexEncode(o)
  }

  /** `ObjectId::parse_str`: hex text that decodes to exactly twelve bytes. */
  function ParseObjectIdHex(s: string): (r: Option<ObjectIdBytes>)
    ensures r.Some? ==> |s| == 24 && forall i :: 0 <= i < |s| ==> HexValue(s[i]).Some?
  {
    HexDecodeDigits(s);
    match HexDecode(s)
    case Some(b) => if |b| == 12 then Some(b) else None
    case None => None
  }

  /** Every ObjectId parses back from its hex text. */
  lemma ObjectIdHexRoundTrip(o: ObjectIdBytes)
    ensures ParseObjectIdHex(ObjectIdToHex(o)) == Some(o)
  {
    HexRoundTrip(o);
  }

  /** A parsed ObjectId prints as the parsed text in lower case. */
  lemma ParseObjectIdHexPrints(s: string)
    requires ParseObjectIdHex(s).Some?
    ensures ObjectIdToHex(ParseObjectIdHex(s).value) == seq(|s|, i requires 0 <= i < |s| => ToLowerHex(s[i]))
  {
    HexDecodeEncode(s);
  }
}
