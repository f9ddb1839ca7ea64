/** The Lua-stack steps of the table branch of `lua_value_to_bson` and of
    `parse_date_table` (src/types/conversion.rs:99-123, 220-234), as written
    and as evidently intended, and the number test of lines 64-71 as
    written. The rest of the model uses the corrected forms, which are the
    ones in module Conversion. */
module StackProbe {
  import opened Wrappers
  import opened Bson
  import opened Lua
  import opened Conversion

  /** The slot an acceptable stack index names: positive indices count from
      the bottom, negative ones from the top. */
  function Slot(stack: seq<LuaValue>, index: int): (j: int)
    ensures index > 0 ==> j == index - 1
    ensures index < 0 ==> j == |stack| + index
  {
    if index > 0 then index - 1 else |stack| + index
  }

  predicate ValidIndex(stack: seq<LuaValue>, index: int) {
    index != 0 && 0 <= Slot(stack, index) < |stack|
  }

  /** `t[key]` as `lua_gettable` reads it. A string's metatable sends the
      look-up to the string library, which has neither of the two field
      names used here, so a string reads as nil. */
  function Index(target: LuaValue, key: LuaValue): LuaValue {
    if target.Table? then Get(target, key) else Nil
  }

  /** `lua_gettable(l, index)`: pops the key on top and pushes the value
      found under it in the value at `index` (resolved with the key still
      on the stack). */
  function GetTable(stack: seq<LuaValue>, index: int): (r: seq<LuaValue>)
    requires ValidIndex(stack, index)
    ensures |r| == |stack|
  {
    stack[..|stack| - 1] + [Index(stack[Slot(stack, index)], stack[|stack| - 1])]
  }

  function Pop(stack: seq<LuaValue>, n: nat): (r: seq<LuaValue>)
    requires n <= |stack|
    ensures r == stack[..|stack| - n]
  {
    stack[..|stack| - n]
  }

  /** Where the table branch goes: to `parse_date_table`, or to
      `lua_table_to_bson_value`, each with the stack and index it is given. */
  datatype Branch = ParseDateAt(stack: seq<LuaValue>, index: int) | ConvertAt(stack: seq<LuaValue>, index: int)

  /** Lines 100-122 as written: push "__bson_type", `lua_gettable(l, index)`
      with the caller's index, pop once if the result is a string and
      once more afterwards. */
  function TableBranchAsWritten(stack: seq<LuaValue>, index: int): (b: Branch)
    requires |stack| > 0 && ValidIndex(stack + [Str(TypeTag)], index)
  {
    var pushed := stack + [Str(TypeTag)];
    var probed := GetTable(pushed, index);
    var tag := probed[|probed| - 1];
    if tag.Str? then
      var once := Pop(probed, 1);
      if tag.s == DateTag then ParseDateAt(once, index)
      else ConvertAt(Pop(once, 1), index)
    else ConvertAt(Pop(probed, 1), index)
  }

  /** Lines 221-233 as written. */
  function ParseDateAsWritten(stack: seq<LuaValue>, index: int): (r: Result<BsonValue, LuaError>)
    requires ValidIndex(stack + [Str(TimestampKey)], index)
  {
    var probed := GetTable(stack + [Str(TimestampKey)], index);
    match probed[|probed| - 1]
    case Num(ms) => Success(DateTime(SaturateI64(ms)))
    case _ => Failure(TableConversion(BadDateMessage))
  }

  /** With the caller's index -1, the look-up reads the key string just
      pushed instead of the table: the tag is never seen, so every table,
      date tables included, goes to the generic table conversion. */
  lemma {:induction false} ProbeReadsKey(stack: seq<LuaValue>, t: LuaValue)
    requires t.Table?
    ensures TableBranchAsWritten(stack + [t], -1) == ConvertAt(stack + [t], -1)
  {
    var pushed := stack + [t] + [Str(TypeTag)];
    assert pushed[Slot(pushed, -1)] == Str(TypeTag);
    assert Pop(GetTable(pushed, -1), 1) == stack + [t];
  }

  /** Were the look-up given the table's absolute slot, a string tag other
      than "date" would be popped twice (lines 107 and 114): the table itself
      leaves the stack and the index no longer names it. */
  lemma {:induction false} OtherTagPoppedTwice(stack: seq<LuaValue>, t: LuaValue)
    requires t.Table? && Get(t, Str(TypeTag)) == Str("x")
    ensures TableBranchAsWritten(stack + [t], |stack| + 1) == ConvertAt(stack, |stack| + 1)
    ensures !ValidIndex(stack, |stack| + 1)
  {
    var pushed := stack + [t] + [Str(TypeTag)];
    assert pushed[Slot(pushed, |stack| + 1)] == t;
    assert Pop(Pop(GetTable(pushed, |stack| + 1), 1), 1) == stack;
  }

  /** The same slip in `parse_date_table`: a date table always fails. */
  lemma {:induction false} DateParseReadsKey(stack: seq<LuaValue>, t: LuaValue)
    requires t.Table?
    ensures ParseDateAsWritten(stack + [t], -1) == Failure(TableConversion(BadDateMessage))
  {
    var pushed := stack + [t] + [Str(TimestampKey)];
    assert pushed[Slot(pushed, -1)] == Str(TimestampKey);
  }

  /** The date table has no element 1, so its length is 0. */
  lemma DateTableLength(ms: int)
    ensures Length(DateTable(ms)) == 0
  {
    var t := DateTable(ms);
    GetCons(t.entries[0], t.entries[1..], Num(1));
    GetCons(t.entries[1], [], Num(1));
    assert t.entries == [t.entries[0]] + ([t.entries[1]] + []);
  }

  /** The generic table conversion of a date table is a document of its
      two entries. */
  lemma DateTableAsDocument()
    ensures TableToBsonValue(DateTable(0)) ==
            Success(Document([Field(TypeTag, String(DateTag)), Field(TimestampKey, Int64(0))]))
  {
    var t := DateTable(0);
    DateTableLength(0);
    assert StringToBson(DateTag) == String(DateTag);
    var d1 := Insert([], TypeTag, String(DateTag));
    assert d1 == [Field(TypeTag, String(DateTag))];
    assert TypeTag != TimestampKey;
    var d2 := Insert(d1, TimestampKey, Int64(0));
    InsertFresh(d1, TimestampKey, Int64(0));
    assert d2 == [Field(TypeTag, String(DateTag)), Field(TimestampKey, Int64(0))];
    assert EntriesToDoc(t, 0, []) == EntriesToDoc(t, 1, d1);
    assert EntriesToDoc(t, 1, d1) == EntriesToDoc(t, 2, d2);
  }

  /** So a DateTime sent to Lua and back becomes a document holding the tag
      and the timestamp, where the evident intent is the DateTime itself. */
  lemma DateLostAsWritten()
    ensures TableBranchAsWritten([DateTable(0)], -1) == ConvertAt([DateTable(0)], -1)
    ensures TableToBsonValue(DateTable(0)) ==
            Success(Document([Field(TypeTag, String(DateTag)), Field(TimestampKey, Int64(0))]))
    ensures ValueToBson(DateTable(0)) == Success(DateTime(0))
  {
    ProbeReadsKey([], DateTable(0));
    DateTableAsDocument();
    DateRoundTrip(0);
  }

  /** The evident intent: resolve the table's slot before pushing, look the
      tag up in the table, and leave the stack as it was, whatever the tag. */
  function TableBranchFixed(stack: seq<LuaValue>, index: int): (b: Branch)
    requires ValidIndex(stack, index) && stack[Slot(stack, index)].Table?
    ensures b.stack == stack
  {
    var abs := Slot(stack, index) + 1;
    var probed := GetTable(stack + [Str(TypeTag)], abs);
    var tag := probed[|probed| - 1];
    if tag == Str(DateTag) then ParseDateAt(Pop(probed, 1), index)
    else ConvertAt(Pop(probed, 1), index)
  }

  /** The fixed branch parses a date exactly for date-tagged tables, which
      is the decision `Conversion.ValueToBson` makes. */
  lemma {:induction false} FixedBranchDecides(stack: seq<LuaValue>, t: LuaValue)
    requires t.Table?
    ensures TableBranchFixed(stack + [t], -1).ParseDateAt? <==> IsDateTable(t)
  {
    var s := stack + [t];
    var pushed := s + [Str(TypeTag)];
    assert pushed[Slot(pushed, Slot(s, -1) + 1)] == t;
  }

  /** `value.abs() <= (i64::MAX as f64)` followed by `value as i64`
      (lines 66-67): the bound is 2^63, which the cast cannot hold. */
  function NumberToBsonAsWritten(n: int): (r: BsonValue)
  {
    if -0x8000_0000_0000_0000 <= n <= 0x8000_0000_0000_0000 then Int64(SaturateI64(n)) else Double(n)
  }

  /** 2^63 passes the test and is stored as 2^63 - 1. */
  lemma NumberBoundAsWritten()
    ensures NumberToBsonAsWritten(0x8000_0000_0000_0000) == Int64(I64_MAX)
    ensures NumberToBson(0x8000_0000_0000_0000) == Double(0x8000_0000_0000_0000)
  {
  }

  /** Everywhere else the corrected test agrees with the one as written. */
  lemma NumberBoundOnlyDiffersAtTop(n: int)
    requires n != 0x8000_0000_0000_0000
    ensures NumberToBsonAsWritten(n) == NumberToBson(n)
  {
  }
}
