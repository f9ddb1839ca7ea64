/** The mapping between Lua values and BSON values used by every request and
    every reply of the bridge (src/types/conversion.rs). */
module Conversion {
  import opened Wrappers
  import opened Bson
  import opened Lua

  /** The two kinds of conversion error this mapping raises. */
  datatype LuaError =
    | TypeConversion(expected: string, actual: string)
    | TableConversion(message: string)

  const RejectedTypeExpectation: string := "nil, boolean, number, string, or table"
  const BadKeyMessage: string := "Table keys must be strings or numbers"
  const BadDateMessage: string := "Invalid date table format"
  const ObjectIdPrefix: string := "ObjectId("
  const TypeTag: string := "__bson_type"
  const DateTag: string := "date"
  const TimestampKey: string := "timestamp"

  // ----- numbers

  /** A Lua number as BSON: an integer that fits a signed 64-bit integer is
      an Int64, any other integer-valued number a Double. */
  function NumberToBson(n: int): (r: BsonValue)
    ensures r.Int64? || r.Double?
    ensures r.Int64? <==> I64_MIN <= n <= I64_MAX
    ensures r.Int64? ==> r.int64 == n
    ensures r.Double? ==> r.double == n
  {
    if I64_MIN <= n <= I64_MAX then Int64(n) else Double(n)
  }

  // ----- strings and object ids

  /** `starts_with("ObjectId(") && ends_with(")")`. */
  predicate HasObjectIdShape(s: string) {
    |s| >= |ObjectIdPrefix| && s[..|ObjectIdPrefix|] == ObjectIdPrefix && s[|s| - 1] == ')'
  }

  /** The text between the parentheses of an `ObjectId(...)`-shaped string. */
  function ObjectIdInner(s: string): (h: string)
    requires HasObjectIdShape(s)
    ensures ObjectIdPrefix + h + ")" == s
  {
    assert s[8] == '(';
    s[|ObjectIdPrefix|..|s| - 1]
  }

  /** The text an ObjectId travels as on the Lua side. */
  function ObjectIdString(o: ObjectIdBytes): (s: string)
    ensures HasObjectIdShape(s)
  {
    ObjectIdPrefix + ObjectIdToHex(o) + ")"
  }

  /** A Lua string as BSON: the `ObjectId(<24 hex digits>)` form becomes an
      ObjectId, every other string stays a string. */
  function StringToBson(s: string): (r: BsonValue)
    ensures r.ObjectId? || r == String(s)
    ensures r.ObjectId? <==> HasObjectIdShape(s) && ParseObjectIdHex(ObjectIdInner(s)).Some?
    ensures r.ObjectId? ==> Some(r.oid) == ParseObjectIdHex(ObjectIdInner(s))
  {
    if HasObjectIdShape(s) then
      match ParseObjectIdHex(ObjectIdInner(s))
      case Some(o) => ObjectId(o)
      case None => String(s)
    else String(s)
  }

  // ----- table keys

  /** `get_table_key`: strings are kept, numbers become their decimal text,
      every other key is an error. */
  function KeyString(k: LuaValue): (r: Result<string, LuaError>)
    ensures k.Str? ==> r == Success(k.s)
    ensures k.Num? ==> r.Success? && ParseDecimal(r.value) == Some(k.n)
    ensures !k.Str? && !k.Num? ==> r == Failure(TableConversion(BadKeyMessage))
  {
    match k
    case Str(s) => Success(s)
    case Num(n) => IntToStringParses(n); Success(IntToString(n))
    case _ => Failure(TableConversion(BadKeyMessage))
  }

  /** Two number keys give the same document key only when they are equal. */
  lemma NumberKeysDistinct(m: int, n: int)
    requires KeyString(Num(m)) == KeyString(Num(n))
    ensures m == n
  {
    IntToStringInjective(m, n);
  }

  // ----- dates

  /** `parse_date_table`: a numeric `timestamp` field gives a DateTime of
      that many milliseconds (cast to i64), anything else is an error. */
  function ParseDate(t: LuaValue): (r: Result<BsonValue, LuaError>)
    requires t.Table?
    ensures Get(t, Str(TimestampKey)).Num? ==> r == Success(DateTime(SaturateI64(Get(t, Str(TimestampKey)).n)))
    ensures !Get(t, Str(TimestampKey)).Num? ==> r == Failure(TableConversion(BadDateMessage))
  {
    match Get(t, Str(TimestampKey))
    case Num(ms) => Success(DateTime(SaturateI64(ms)))
    case _ => Failure(TableConversion(BadDateMessage))
  }

  /** A table carries the date tag. */
  predicate IsDateTable(t: LuaValue)
    requires t.Table?
  {
    Get(t, Str(TypeTag)) == Str(DateTag)
  }

  // ----- the array test

  predicate ArrayKey(k: LuaValue, len: nat) {
    k.Num? && 1 <= k.n <= len
  }

  /** `lua_table_is_array`: the length is positive and every key is an
      integer between 1 and the length. */
  predicate IsArray(t: LuaValue)
    requires t.Table?
  {
    Length(t) > 0 && forall i :: 0 <= i < |t.entries| ==> ArrayKey(t.entries[i].key, Length(t))
  }

  // ----- Lua to BSON

  function ConversionError(v: LuaValue): LuaError {
    TypeConversion(RejectedTypeExpectation, Typename(v))
  }

  /** Nil, booleans, numbers, strings and tables convert; every other kind is
      rejected with the kind's name. A tagged date table is parsed as a date
      (the tag is read from the table itself). */
  function ValueToBson(v: LuaValue): (r: Result<BsonValue, LuaError>)
    decreases v, 3
  {
    match v
    case Nil => Success(Null)
    case Bool(b) => Success(Boolean(b))
    case Num(n) => Success(NumberToBson(n))
    case Str(s) => Success(StringToBson(s))
    case Table(_) => if IsDateTable(v) then ParseDate(v) else TableToBsonValue(v)
    case _ => Failure(ConversionError(v))
  }

  /** `lua_table_to_bson_value`: an array table becomes a BSON array of its
      elements 1..length, any other table a document. */
  function TableToBsonValue(t: LuaValue): (r: Result<BsonValue, LuaError>)
    requires t.Table?
    ensures r.Success? ==> (r.value.Array? <==> IsArray(t))
    ensures r.Success? ==> r.value.Array? || r.value.Document?
    decreases t, 2
  {
    if IsArray(t) then
      match ArrayItems(t, 1, Length(t), [])
      case Success(items) => Success(Array(items))
      case Failure(e) => Failure(e)
    else
      match TableToDocument(t)
      case Success(d) => Success(Document(d))
      case Failure(e) => Failure(e)
  }

  /** The array loop: elements i..n are converted in turn and appended to
      `acc`; the first failure ends the loop. */
  function ArrayItems(t: LuaValue, i: nat, n: nat, acc: seq<BsonValue>): (r: Result<seq<BsonValue>, LuaError>)
    requires t.Table? && 1 <= i <= n + 1
    decreases t, 0, n + 1 - i
  {
    if i == n + 1 then Success(acc)
    else
      var j := KeyPosition(t.entries, Num(i));
      var item := if j < 0 then Success(Null) else ValueToBson(t.entries[j].value);
      match item
      case Success(b) => ArrayItems(t, i + 1, n, acc + [b])
      case Failure(e) => Failure(e)
  }

  /** `lua_table_to_bson`: a non-table is an error; a table's entries are
      inserted in traversal order. */
  function TableToDocument(v: LuaValue): (r: Result<Doc, LuaError>)
    ensures !v.Table? ==> r == Failure(TypeConversion("table", Typename(v)))
    decreases v, 1
  {
    if v.Table? then EntriesToDoc(v, 0, []) else Failure(TypeConversion("table", Typename(v)))
  }

  /** The `lua_next` loop from entry i on: key first, then value, then
      `Document::insert`; the first failure ends the loop. */
  function EntriesToDoc(t: LuaValue, i: nat, acc: Doc): (r: Result<Doc, LuaError>)
    requires t.Table? && i <= |t.entries|
    decreases t, 0, |t.entries| - i
  {
    if i == |t.entries| then Success(acc)
    else
      match KeyString(t.entries[i].key)
      case Failure(e) => Failure(e)
      case Success(key) =>
        match ValueToBson(t.entries[i].value)
        case Failure(e) => Failure(e)
        case Success(value) => EntriesToDoc(t, i + 1, Insert(acc, key, value))
  }

  /** A document the loop completes has every key it started with, and the
      key string of every entry from i on, each of which is valid. */
  lemma {:induction false} EntriesToDocKeys(t: LuaValue, i: nat, acc: Doc)
    requires t.Table? && i <= |t.entries| && EntriesToDoc(t, i, acc).Success?
    ensures var d := EntriesToDoc(t, i, acc).value;
      Keys(acc) <= Keys(d) &&
      forall j :: i <= j < |t.entries| ==>
        KeyString(t.entries[j].key).Success? && KeyString(t.entries[j].key).value in Keys(d)
    decreases |t.entries| - i
  {
    if i < |t.entries| {
      var k, v := KeyString(t.entries[i].key), ValueToBson(t.entries[i].value);
      assert k.Success? && v.Success?;
      var next := Insert(acc, k.value, v.value);
      assert EntriesToDoc(t, i, acc) == EntriesToDoc(t, i + 1, next);
      EntriesToDocKeys(t, i + 1, next);
      var d := EntriesToDoc(t, i + 1, next).value;
      assert Keys(acc) + {k.value} <= Keys(d);
      forall j | i <= j < |t.entries|
        ensures KeyString(t.entries[j].key).Success? && KeyString(t.entries[j].key).value in Keys(d)
      {
      }
    }
  }

  // ----- the loops as the source runs them

  /** The key-scanning loop of `lua_table_is_array`. */
  method LuaTableIsArray(t: LuaValue) returns (b: bool)
    requires t.Table?
    ensures b == IsArray(t)
  {
    var len := Length(t);
    if len == 0 {
      return false;
    }
    var i := 0;
    while i < |t.entries|
      invariant 0 <= i <= |t.entries|
      invariant forall j :: 0 <= j < i ==> ArrayKey(t.entries[j].key, len)
    {
      var key := t.entries[i].key;
      if !key.Num? {
        return false;
      }
      if key.n < 1 || key.n > len {
        return false;
      }
      i := i + 1;
    }
    return true;
  }

  /** The `lua_next` loop of `lua_table_to_bson`. */
  method LuaTableToBson(v: LuaValue) returns (r: Result<Doc, LuaError>)
    ensures r == TableToDocument(v)
  {
    if !v.Table? {
      return Failure(TypeConversion("table", Typename(v)));
    }
    var doc: Doc := [];
    var i := 0;
    while i < |v.entries|
      invariant 0 <= i <= |v.entries|
      invariant TableToDocument(v) == EntriesToDoc(v, i, doc)
    {
      var key := KeyString(v.entries[i].key);
      if key.Failure? {
        return Failure(key.error);
      }
      var value := ValueToBson(v.entries[i].value);
      if value.Failure? {
        return Failure(value.error);
      }
      doc := Insert(doc, key.value, value.value);
      i := i + 1;
    }
    return Success(doc);
  }

  /** `lua_table_to_bson_value` with its `for i in 1..=len` loop. */
  method LuaTableToBsonValue(t: LuaValue) returns (r: Result<BsonValue, LuaError>)
    requires t.Table?
    ensures r == TableToBsonValue(t)
  {
    var isArray := LuaTableIsArray(t);
    if !isArray {
      var doc := LuaTableToBson(t);
      if doc.Failure? {
        return Failure(doc.error);
      }
      return Success(Document(doc.value));
    }
    var len := Length(t);
    var arr: seq<BsonValue> := [];
    var i := 1;
    while i <= len
      invariant 1 <= i <= len + 1
      invariant ArrayItems(t, 1, len, []) == ArrayItems(t, i, len, arr)
    {
      var val := ValueToBson(Get(t, Num(i)));
      if val.Failure? {
        return Failure(val.error);
      }
      arr := arr + [val.value];
      i := i + 1;
    }
    return Success(Array(arr));
  }

  // ----- BSON to Lua

  /** `lua_settable`: a nil value removes the key, an existing key keeps its
      place and takes the value, a new key is appended. */
  function SetField(es: seq<Entry>, k: LuaValue, v: LuaValue): seq<Entry> {
    if es == [] then (if v == Nil then [] else [Entry(k, v)])
    else if es[0].key == k then (if v == Nil then es[1..] else [Entry(k, v)] + es[1..])
    else [es[0]] + SetField(es[1..], k, v)
  }

  /** A store adds at most its own key. */
  lemma {:induction false} SetFieldKeys(es: seq<Entry>, k: LuaValue, v: LuaValue)
    ensures EntryKeys(SetField(es, k, v)) <= EntryKeys(es) + {k}
  {
    if es != [] {
      EntryKeysCons(es[0], es[1..]);
      assert [es[0]] + es[1..] == es;
      if es[0].key == k {
        if v != Nil {
          EntryKeysCons(Entry(k, v), es[1..]);
        }
      } else {
        SetFieldKeys(es[1..], k, v);
        EntryKeysCons(es[0], SetField(es[1..], k, v));
      }
    }
  }

  /** An entry whose key the rest does not hold keeps the keys distinct. */
  lemma ConsUnique(e: Entry, es: seq<Entry>)
    requires UniqueKeys(es) && forall j :: 0 <= j < |es| ==> es[j].key != e.key
    ensures UniqueKeys([e] + es)
  {
    var r := [e] + es;
    forall i, j | 0 <= i < j < |r| ensures r[i].key != r[j].key {
      assert r[j] == es[j - 1];
      if i > 0 { assert r[i] == es[i - 1]; }
    }
  }

  lemma {:induction false} SetFieldUnique(es: seq<Entry>, k: LuaValue, v: LuaValue)
    requires UniqueKeys(es)
    ensures UniqueKeys(SetField(es, k, v))
  {
    if es != [] {
      var tail := es[1..];
      assert [es[0]] + tail == es;
      assert UniqueKeys(tail) by {
        forall i, j | 0 <= i < j < |tail| ensures tail[i].key != tail[j].key {
          assert tail[i] == es[i + 1] && tail[j] == es[j + 1];
        }
      }
      assert forall j :: 0 <= j < |tail| ==> tail[j].key != es[0].key by {
        forall j | 0 <= j < |tail| ensures tail[j].key != es[0].key {
          assert tail[j] == es[j + 1];
        }
      }
      if es[0].key == k {
        if v != Nil {
          ConsUnique(Entry(k, v), tail);
        }
      } else {
        var rest := SetField(tail, k, v);
        SetFieldUnique(tail, k, v);
        SetFieldKeys(tail, k, v);
        EntryKeysCons(es[0], tail);
        forall j | 0 <= j < |rest| ensures rest[j].key != es[0].key {
          assert rest[j].key in EntryKeys(tail) + {k};
        }
        ConsUnique(es[0], rest);
      }
    }
  }

  /** After `t[k] = v`, key k holds v and every other key what it held. */
  lemma {:induction false} SetFieldGet(es: seq<Entry>, k: LuaValue, v: LuaValue, k': LuaValue)
    requires UniqueKeys(es)
    ensures Get(Table(SetField(es, k, v)), k') == if k' == k then v else Get(Table(es), k')
  {
    if es == [] {
      if v != Nil {
        GetCons(Entry(k, v), [], k');
      }
    } else {
      GetCons(es[0], es[1..], k');
      assert [es[0]] + es[1..] == es;
      if es[0].key == k {
        if v != Nil {
          GetCons(Entry(k, v), es[1..], k');
        } else if k' == k {
          EntryKeysCons(es[0], es[1..]);
          assert KeyPosition(es[1..], k) == -1;
        }
      } else {
        SetFieldGet(es[1..], k, v, k');
        GetCons(es[0], SetField(es[1..], k, v), k');
      }
    }
  }

  /** The table a DateTime travels as. */
  function DateTable(ms: int): (t: LuaValue)
    ensures t.Table? && Get(t, Str(TypeTag)) == Str(DateTag) && Get(t, Str(TimestampKey)) == Num(ms)
  {
    var second := Entry(Str(TimestampKey), Num(ms));
    GetCons(Entry(Str(TypeTag), Str(DateTag)), [second], Str(TimestampKey));
    GetCons(second, [], Str(TimestampKey));
    Table([Entry(Str(TypeTag), Str(DateTag)), second])
  }

  /** `CString::new(s)` fails on an interior NUL; the bridge then pushes "". */
  function PushableString(s: string): string {
    if '\0' in s then "" else s
  }

  /** `bson_value_to_lua`. */
  function BsonToLua(b: BsonValue): (v: LuaValue)
    ensures v.Nil? <==> b.Null? || b.Undefined? || b.Other?
    ensures v.Num? <==> b.Int32? || b.Int64? || b.Double?
    ensures v.Table? <==> b.Document? || b.Array? || b.DateTime?
    decreases b, 1
  {
    match b
    case Null => Nil
    case Undefined => Nil
    case Boolean(x) => Bool(x)
    case Int32(i) => Num(i)
    case Int64(i) => Num(i)
    case Double(d) => Num(d)
    case String(s) => Str(PushableString(s))
    case Document(_) => Table(DocEntries(b, |b.fields|))
    case Array(_) => Table(ArrayEntries(b, |b.items|))
    case ObjectId(o) => Str(ObjectIdString(o))
    case DateTime(ms) => DateTable(ms)
    case Binary(bytes) => Str(HexEncode(bytes))
    case Other(_) => Nil
  }

  /** `bson_to_lua_table` after its first n fields. */
  function DocEntries(b: BsonValue, n: nat): (es: seq<Entry>)
    requires b.Document? && n <= |b.fields|
    ensures UniqueKeys(es)
    ensures forall j :: 0 <= j < |es| ==> es[j].key.Str?
    decreases b, 0, n
  {
    if n == 0 then []
    else
      var before := DocEntries(b, n - 1);
      var key := Str(b.fields[n - 1].key);
      SetFieldUnique(before, key, BsonToLua(b.fields[n - 1].value));
      SetFieldKeys(before, key, BsonToLua(b.fields[n - 1].value));
      var es := SetField(before, key, BsonToLua(b.fields[n - 1].value));
      assert forall j :: 0 <= j < |es| ==> es[j].key in EntryKeys(before) + {key};
      es
  }

  /** The array branch after its first n items: item i goes to index i + 1
      with `lua_rawseti`. */
  function ArrayEntries(b: BsonValue, n: nat): (es: seq<Entry>)
    requires b.Array? && n <= |b.items|
    ensures UniqueKeys(es)
    decreases b, 0, n
  {
    if n == 0 then []
    else
      var before := ArrayEntries(b, n - 1);
      SetFieldUnique(before, Num(n), BsonToLua(b.items[n - 1]));
      SetField(before, Num(n), BsonToLua(b.items[n - 1]))
  }

  /** `bson_to_lua_table`. */
  function DocToLua(d: Doc): (t: LuaValue)
    ensures t.Table? && UniqueKeys(t.entries)
    ensures forall j :: 0 <= j < |t.entries| ==> t.entries[j].key.Str?
  {
    BsonToLua(Document(d))
  }

  // ----- properties of the mapping

  /** A conversion of BSON values to Lua values. */
  type LuaConversion = BsonValue -> LuaValue

  /** The entries after storing fields 0..n-1 with `lua_settable`, each value
      converted by `toLua`: the document loop stated for any conversion. */
  function FieldEntries(toLua: LuaConversion, fs: seq<Field>, n: nat): seq<Entry>
    requires n <= |fs|
  {
    if n == 0 then [] else SetField(FieldEntries(toLua, fs, n - 1), Str(fs[n - 1].key), toLua(fs[n - 1].value))
  }

  /** The entries after storing items 0..n-1 under 1..n with `lua_rawseti`. */
  function ItemEntries(toLua: LuaConversion, items: seq<BsonValue>, n: nat): seq<Entry>
    requires n <= |items|
  {
    if n == 0 then [] else SetField(ItemEntries(toLua, items, n - 1), Num(n), toLua(items[n - 1]))
  }

  /** The document branch is that loop with `BsonToLua` as the conversion. */
  lemma {:induction false} DocEntriesAgree(b: BsonValue, n: nat)
    requires b.Document? && n <= |b.fields|
    ensures DocEntries(b, n) == FieldEntries(BsonToLua, b.fields, n)
    decreases n
  {
    if n > 0 {
      DocEntriesAgree(b, n - 1);
    }
  }

  /** The array branch is that loop with `BsonToLua` as the conversion. */
  lemma {:induction false} ArrayEntriesAgree(b: BsonValue, n: nat)
    requires b.Array? && n <= |b.items|
    ensures ArrayEntries(b, n) == ItemEntries(BsonToLua, b.items, n)
    decreases n
  {
    if n > 0 {
      ArrayEntriesAgree(b, n - 1);
    }
  }

  /** Storing fields keeps the table's keys distinct. */
  lemma {:induction false} FieldEntriesUnique(toLua: LuaConversion, fs: seq<Field>, n: nat)
    requires n <= |fs|
    ensures UniqueKeys(FieldEntries(toLua, fs, n))
    decreases n
  {
    if n > 0 {
      FieldEntriesUnique(toLua, fs, n - 1);
      SetFieldUnique(FieldEntries(toLua, fs, n - 1), Str(fs[n - 1].key), toLua(fs[n - 1].value));
    }
  }

  /** One more field: its name reads its value, other names what they read. */
  lemma FieldEntriesStep(toLua: LuaConversion, fs: seq<Field>, n: nat, key: string)
    requires 0 < n <= |fs|
    ensures Get(Table(FieldEntries(toLua, fs, n)), Str(key)) ==
            if key == fs[n - 1].key then toLua(fs[n - 1].value) else Get(Table(FieldEntries(toLua, fs, n - 1)), Str(key))
  {
    FieldEntriesUnique(toLua, fs, n - 1);
    SetFieldGet(FieldEntries(toLua, fs, n - 1), Str(fs[n - 1].key), toLua(fs[n - 1].value), Str(key));
  }

  /** After fields 0..n-1 with distinct names, the table reads, under each
      name, the conversion of that field's value, and nil under every other
      name. */
  lemma {:induction false} FieldEntriesRead(toLua: LuaConversion, fs: seq<Field>, n: nat, key: string)
    requires n <= |fs| && DistinctKeys(fs)
    ensures Get(Table(FieldEntries(toLua, fs, n)), Str(key)) ==
            match Lookup(fs[..n], key) case Some(v) => toLua(v) case None => Nil
    decreases n
  {
    if n > 0 {
      FieldEntriesRead(toLua, fs, n - 1, key);
      FieldEntriesStep(toLua, fs, n, key);
      LookupLast(fs, n, key);
    }
  }

  /** With distinct names, field n - 1 answers for its own name among the
      first n fields, and the others answer for every other name. */
  lemma LookupLast(fs: seq<Field>, n: nat, key: string)
    requires 0 < n <= |fs| && DistinctKeys(fs)
    ensures Lookup(fs[..n], key) == if key == fs[n - 1].key then Some(fs[n - 1].value) else Lookup(fs[..n - 1], key)
  {
    var f, front := fs[n - 1], fs[..n - 1];
    assert fs[..n] == front + [f];
    LookupSnoc(front, f, key);
    if key == f.key {
      forall i | 0 <= i < |front| ensures front[i].key != key {
        assert front[i] == fs[i];
      }
    }
  }

  /** Storing items keeps the table's keys distinct. */
  lemma {:induction false} ItemEntriesUnique(toLua: LuaConversion, items: seq<BsonValue>, n: nat)
    requires n <= |items|
    ensures UniqueKeys(ItemEntries(toLua, items, n))
    decreases n
  {
    if n > 0 {
      ItemEntriesUnique(toLua, items, n - 1);
      SetFieldUnique(ItemEntries(toLua, items, n - 1), Num(n), toLua(items[n - 1]));
    }
  }

  /** One more item: its index reads it, other numbers what they read. */
  lemma ItemEntriesStep(toLua: LuaConversion, items: seq<BsonValue>, n: nat, k: int)
    requires 0 < n <= |items|
    ensures Get(Table(ItemEntries(toLua, items, n)), Num(k)) ==
            if k == n then toLua(items[n - 1]) else Get(Table(ItemEntries(toLua, items, n - 1)), Num(k))
  {
    ItemEntriesUnique(toLua, items, n - 1);
    SetFieldGet(ItemEntries(toLua, items, n - 1), Num(n), toLua(items[n - 1]), Num(k));
  }

  /** After items 0..n-1, the table holds item k - 1 under index k, for k up
      to n, and nil under every other number. */
  lemma {:induction false} ItemEntriesRead(toLua: LuaConversion, items: seq<BsonValue>, n: nat, k: int)
    requires n <= |items|
    ensures Get(Table(ItemEntries(toLua, items, n)), Num(k)) == if 1 <= k <= n then toLua(items[k - 1]) else Nil
    decreases n
  {
    if n > 0 {
      ItemEntriesRead(toLua, items, n - 1, k);
      ItemEntriesStep(toLua, items, n, k);
    }
  }

  /** A document with distinct field names arrives in Lua as a table holding,
      under each name, the Lua form of that field's value, and nil under
      every other name. */
  lemma DocToLuaFields(d: Doc, key: string)
    requires DistinctKeys(d)
    ensures Get(DocToLua(d), Str(key)) ==
            match Lookup(d, key) case Some(v) => BsonToLua(v) case None => Nil
  {
    DocEntriesAgree(Document(d), |d|);
    FieldEntriesRead(BsonToLua, d, |d|, key);
    assert d[..|d|] == d;
  }

  /** A BSON array arrives in Lua as a table holding item k - 1 under index
      k, and nil under every other number. */
  lemma ArrayToLuaItems(items: seq<BsonValue>, k: int)
    ensures BsonToLua(Array(items)).Table?
    ensures Get(BsonToLua(Array(items)), Num(k)) == if 1 <= k <= |items| then BsonToLua(items[k - 1]) else Nil
  {
    ArrayEntriesAgree(Array(items), |items|);
    ItemEntriesRead(BsonToLua, items, |items|, k);
  }

  /** The conversion of array element i. */
  function ElementBson(t: LuaValue, i: int): Result<BsonValue, LuaError>
    requires t.Table?
  {
    ValueToBson(Get(t, Num(i)))
  }

  /** A conversion applied to each array element. */
  type ValueConversion = LuaValue -> Result<BsonValue, LuaError>

  /** The array loop stated for any element conversion: elements i..n are
      converted in turn and appended to `acc`; the first failure ends it. */
  function ItemsFrom(convert: ValueConversion, t: LuaValue, i: nat, n: nat, acc: seq<BsonValue>): Result<seq<BsonValue>, LuaError>
    requires t.Table? && 1 <= i <= n + 1
    decreases n + 1 - i
  {
    if i == n + 1 then Success(acc)
    else
      match convert(Get(t, Num(i)))
      case Success(b) => ItemsFrom(convert, t, i + 1, n, acc + [b])
      case Failure(e) => Failure(e)
  }

  /** The array loop is that loop with `ValueToBson` as the conversion. */
  lemma {:induction false} ArrayItemsAgree(t: LuaValue, i: nat, n: nat, acc: seq<BsonValue>)
    requires t.Table? && 1 <= i <= n + 1
    ensures ArrayItems(t, i, n, acc) == ItemsFrom(ValueToBson, t, i, n, acc)
    decreases n + 1 - i
  {
    if i <= n {
      var j := KeyPosition(t.entries, Num(i));
      var item := if j < 0 then Success(Null) else ValueToBson(t.entries[j].value);
      assert item == ValueToBson(Get(t, Num(i))) by {
        if j < 0 {
          assert Get(t, Num(i)) == Nil;
        }
      }
      if item.Success? {
        assert ArrayItems(t, i, n, acc) == ArrayItems(t, i + 1, n, acc + [item.value]);
        ArrayItemsAgree(t, i + 1, n, acc + [item.value]);
      }
    }
  }

  /** The array loop converts elements i..n in index order after `acc`, or
      fails with the error of the first element that does not convert. */
  lemma {:induction false} ItemsFromSpec(convert: ValueConversion, t: LuaValue, i: nat, n: nat, acc: seq<BsonValue>)
    requires t.Table? && 1 <= i <= n + 1
    ensures var r := ItemsFrom(convert, t, i, n, acc);
      r.Success? ==>
        |r.value| == |acc| + (n + 1 - i) && r.value[..|acc|] == acc &&
        forall k :: i <= k <= n ==> convert(Get(t, Num(k))) == Success(r.value[|acc| + (k - i)])
    ensures var r := ItemsFrom(convert, t, i, n, acc);
      r.Failure? ==>
        exists k :: i <= k <= n && convert(Get(t, Num(k))) == Failure(r.error) &&
          forall m :: i <= m < k ==> convert(Get(t, Num(m))).Success?
    decreases n + 1 - i
  {
    if i <= n {
      var item := convert(Get(t, Num(i)));
      var r := ItemsFrom(convert, t, i, n, acc);
      if item.Success? {
        ItemsFromSpec(convert, t, i + 1, n, acc + [item.value]);
        if r.Success? {
          assert r.value[..|acc| + 1] == acc + [item.value];
          assert r.value[|acc|] == item.value;
          assert r.value[..|acc|] == (acc + [item.value])[..|acc|];
        }
      }
    }
  }

  /** An array table converts to the BSON array of its elements 1..length,
      in order. */
  lemma ArrayConversion(t: LuaValue)
    requires t.Table? && IsArray(t)
    requires TableToBsonValue(t).Success?
    ensures TableToBsonValue(t).value.Array?
    ensures var items := TableToBsonValue(t).value.items;
      |items| == Length(t) &&
      forall k :: 1 <= k <= Length(t) ==> ElementBson(t, k) == Success(items[k - 1])
  {
    var n := Length(t);
    ArrayItemsAgree(t, 1, n, []);
    ItemsFromSpec(ValueToBson, t, 1, n, []);
    var r := ItemsFrom(ValueToBson, t, 1, n, []);
    assert TableToBsonValue(t) == Success(Array(r.value));
    forall k | 1 <= k <= n ensures ElementBson(t, k) == Success(r.value[k - 1]) {
      assert ValueToBson(Get(t, Num(k))) == Success(r.value[k - 1]);
    }
  }

  /** The loop fails exactly when one of the elements i..n does not
      convert. */
  lemma ItemsFromFails(convert: ValueConversion, t: LuaValue, i: nat, n: nat, acc: seq<BsonValue>)
    requires t.Table? && 1 <= i <= n + 1
    ensures ItemsFrom(convert, t, i, n, acc).Failure? <==>
            exists k :: i <= k <= n && convert(Get(t, Num(k))).Failure?
  {
    ItemsFromSpec(convert, t, i, n, acc);
    var r := ItemsFrom(convert, t, i, n, acc);
    if r.Success? {
      forall k | i <= k <= n ensures convert(Get(t, Num(k))).Success? {
        assert convert(Get(t, Num(k))) == Success(r.value[|acc| + (k - i)]);
      }
    }
  }

  /** An array table fails to convert exactly when one of its elements does. */
  lemma ArrayConversionFails(t: LuaValue)
    requires t.Table? && IsArray(t)
    ensures TableToBsonValue(t).Failure? <==>
            exists k :: 1 <= k <= Length(t) && ElementBson(t, k).Failure?
  {
    var n := Length(t);
    ArrayItemsAgree(t, 1, n, []);
    ItemsFromFails(ValueToBson, t, 1, n, []);
    assert TableToBsonValue(t).Failure? <==> ItemsFrom(ValueToBson, t, 1, n, []).Failure?;
    assert forall k :: ElementBson(t, k) == ValueToBson(Get(t, Num(k)));
  }

  /** The keys of an array table are exactly 1..length. */
  lemma ArrayKeysExact(t: LuaValue)
    requires t.Table? && IsArray(t)
    ensures EntryKeys(t.entries) == NumberKeys(Length(t))
  {
    forall k | k in NumberKeys(Length(t)) ensures k in EntryKeys(t.entries) {
      assert Get(t, Num(k.n)) != Nil;
    }
  }

  /** The empty table has length 0, so it is not an array: it converts to an
      empty document. */
  lemma EmptyTableIsDocument()
    ensures !IsArray(Table([]))
    ensures ValueToBson(Table([])) == Success(Document([]))
  {
    assert Length(Table([])) == 0;
  }

  /** A key that is neither a string nor a number makes the whole document
      conversion fail, wherever it appears. */
  lemma {:induction false} BadKeyFails(t: LuaValue, i: nat, acc: Doc, j: nat)
    requires t.Table? && i <= j < |t.entries|
    requires !t.entries[j].key.Str? && !t.entries[j].key.Num?
    ensures EntriesToDoc(t, i, acc).Failure?
    decreases j - i
  {
    var key := KeyString(t.entries[i].key);
    if i < j && key.Success? {
      var value := ValueToBson(t.entries[i].value);
      if value.Success? {
        BadKeyFails(t, i + 1, Insert(acc, key.value, value.value), j);
      }
    }
  }

  /** A number key and the string of its digits name the same document
      field: the later entry wins. */
  lemma KeyCollision(n: int, a: LuaValue, b: LuaValue)
    requires ValueToBson(a).Success? && ValueToBson(b).Success?
    ensures TableToDocument(Table([Entry(Num(n), a), Entry(Str(IntToString(n)), b)]))
         == Success([Field(IntToString(n), ValueToBson(b).value)])
  {
    var t := Table([Entry(Num(n), a), Entry(Str(IntToString(n)), b)]);
    var key, x, y := IntToString(n), ValueToBson(a).value, ValueToBson(b).value;
    var first := Insert([], key, x);
    assert first == [Field(key, x)];
    assert Insert(first, key, y) == [Field(key, y)];
    assert EntriesToDoc(t, 0, []) == EntriesToDoc(t, 1, first);
    assert EntriesToDoc(t, 1, first) == EntriesToDoc(t, 2, Insert(first, key, y));
  }

  /** The kinds `lua_value_to_bson` maps between: nil alone becomes null, a
      table becomes an array, a document or a date, and among the other
      kinds exactly the functions, userdata, light userdata and threads are
      refused, with their type's name. */
  lemma ValueKinds(v: LuaValue)
    ensures ValueToBson(v) == Success(Null) <==> v.Nil?
    ensures v.Table? && ValueToBson(v).Success? ==>
      ValueToBson(v).value.Array? || ValueToBson(v).value.Document? || ValueToBson(v).value.DateTime?
    ensures !v.Table? ==> (ValueToBson(v).Failure? <==> v.Function? || v.Userdata? || v.LightUserdata? || v.Thread?)
    ensures !v.Table? && ValueToBson(v).Failure? ==> ValueToBson(v).error == ConversionError(v)
  {
    if v.Table? && !IsDateTable(v) {
      var r := TableToBsonValue(v);
      assert r.Success? ==> r.value.Array? || r.value.Document?;
    }
  }

  /** Nil and null correspond; undefined and every unsupported BSON kind
      arrive in Lua as nil. */
  lemma NilNull(kind: string)
    ensures ValueToBson(Nil) == Success(Null)
    ensures BsonToLua(Null) == Nil && BsonToLua(Undefined) == Nil && BsonToLua(Other(kind)) == Nil
  {
  }

  /** Among non-table values, exactly the functions, userdata, light
      userdata and threads are rejected, with their type's name. */
  lemma RejectedKinds(v: LuaValue)
    requires !v.Table?
    ensures ValueToBson(v).Failure? <==> v.Function? || v.Userdata? || v.LightUserdata? || v.Thread?
    ensures ValueToBson(v).Failure? ==> ValueToBson(v).error == TypeConversion(RejectedTypeExpectation, Typename(v))
  {
  }

  /** An ObjectId goes to Lua as `ObjectId(<hex>)` and comes back as the
      same ObjectId. */
  lemma ObjectIdLuaRoundTrip(o: ObjectIdBytes)
    ensures BsonToLua(ObjectId(o)) == Str(ObjectIdPrefix + ObjectIdToHex(o) + ")")
    ensures ValueToBson(BsonToLua(ObjectId(o))) == Success(ObjectId(o))
  {
    var s := ObjectIdString(o);
    var h := ObjectIdInner(s);
    assert |h| == |ObjectIdToHex(o)|;
    assert h == s[9..|s| - 1] == ObjectIdToHex(o);
    ObjectIdHexRoundTrip(o);
  }

  /** A string that was read as an ObjectId comes back from Lua's side as
      the same text with its hex digits in lower case. */
  lemma ObjectIdStringNormalised(s: string)
    requires StringToBson(s).ObjectId?
    ensures BsonToLua(StringToBson(s)) ==
            Str(ObjectIdPrefix + seq(|ObjectIdInner(s)|, i requires 0 <= i < |ObjectIdInner(s)| => ToLowerHex(ObjectIdInner(s)[i])) + ")")
  {
    ParseObjectIdHexPrints(ObjectIdInner(s));
  }

  /** A string not of the ObjectId form, without NUL characters, survives a
      trip to Lua and back. */
  lemma StringRoundTrip(s: string)
    requires '\0' !in s
    requires !HasObjectIdShape(s) || ParseObjectIdHex(ObjectIdInner(s)).None?
    ensures ValueToBson(BsonToLua(String(s))) == Success(String(s))
  {
  }

  /** A DateTime goes to Lua as `{__bson_type = "date", timestamp = ms}`,
      which converts back to the same DateTime. */
  lemma DateRoundTrip(ms: i64)
    ensures BsonToLua(DateTime(ms)) == DateTable(ms)
    ensures ValueToBson(BsonToLua(DateTime(ms))) == Success(DateTime(ms))
  {
  }

  /** A date-tagged table without a numeric timestamp is an error. */
  lemma DateWithoutTimestamp(t: LuaValue)
    requires t.Table? && IsDateTable(t) && !Get(t, Str(TimestampKey)).Num?
    ensures ValueToBson(t) == Failure(TableConversion(BadDateMessage))
  {
  }

  /** Numbers keep their value both ways; a 32-bit integer comes back as a
      64-bit one. */
  lemma NumberRoundTrip(n: int, small: i32)
    ensures BsonToLua(NumberToBson(n)) == Num(n)
    ensures ValueToBson(BsonToLua(Int32(small))) == Success(Int64(small))
  {
  }
}
