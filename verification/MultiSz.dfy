/**
 * Reading the privileges of a service from a MULTI_SZ
 * (windows/installer/service_privileges.cpp): strings that end in NUL, ended by an empty one,
 * in a buffer that need not be well formed.
 */
module MultiSz {
  import opened Options

  const MAX_STRINGS := 16

  type Byte = b: nat | b < 256

  type Text = seq<nat>

  // ---------------------------------------------------------------- the encoding

  predicate Proper(text: Text) {
    text != [] && 0 !in text
  }

  ghost predicate AllProper(texts: seq<Text>) {
    forall i | 0 <= i < |texts| :: Proper(texts[i])
  }

  function Body(texts: seq<Text>): seq<nat> {
    if texts == [] then [] else texts[0] + [0] + Body(texts[1..])
  }

  function Encode(texts: seq<Text>): seq<nat> {
    Body(texts) + [0]
  }

  // ---------------------------------------------------------------- what a reader finds

  /** The position of the first NUL, or the end. */
  function FirstNul(units: seq<nat>): (at: nat)
    ensures at <= |units| && 0 !in units[..at] && (at < |units| ==> units[at] == 0)
  {
    if units == [] || units[0] == 0 then 0
    else
      var rest := FirstNul(units[1..]);
      assert units[..rest + 1] == [units[0]] + units[1..][..rest];
      1 + rest
  }

  /** The strings up to the terminator, if it comes before the units or the strings run out. */
  function Parse(units: seq<nat>, taken: nat): Option<seq<Text>>
    decreases |units|
  {
    var end := FirstNul(units);
    if end == |units| || taken >= MAX_STRINGS then None
    else if end == 0 then Some([])
    else
      match Parse(units[end + 1..], taken + 1)
      case None => None
      case Some(rest) => Some([units[..end]] + rest)
  }

  lemma FirstNulIs(units: seq<nat>, text: Text, tail: seq<nat>)
    requires 0 !in text && units == text + [0] + tail
    ensures FirstNul(units) == |text|
  {
    var at := FirstNul(units);
    assert units[|text|] == 0;
    assert forall i | 0 <= i < |text| :: units[i] == text[i] && text[i] in text;
    assert forall i | 0 <= i < at :: units[..at][i] == units[i] && units[i] in units[..at];
  }

  function Prepend(taken: seq<Text>, rest: Option<seq<Text>>): Option<seq<Text>> {
    match rest
    case None => None
    case Some(texts) => Some(taken + texts)
  }

  lemma PrependNone(rest: Option<seq<Text>>)
    ensures Prepend([], rest) == rest
  {
    if rest.Some? {
      assert [] + rest.value == rest.value;
    }
  }

  lemma PrependOne(taken: seq<Text>, text: Text, rest: Option<seq<Text>>)
    ensures Prepend(taken + [text], rest) == Prepend(taken, Prepend([text], rest))
  {
    if rest.Some? {
      assert taken + [text] + rest.value == taken + ([text] + rest.value);
    }
  }

  lemma ParseOne(units: seq<nat>, text: Text, rest: seq<nat>, taken: nat)
    requires Proper(text) && units == text + [0] + rest && taken < MAX_STRINGS
    ensures Parse(units, taken) == Prepend([text], Parse(rest, taken + 1))
  {
    FirstNulIs(units, text, rest);
    assert units[|text| + 1..] == rest && units[..|text|] == text;
  }

  /** The reader inverts the encoder whatever follows, as long as fewer than sixteen strings come. */
  lemma {:induction false} ParseInvertsEncode(texts: seq<Text>, tail: seq<nat>, taken: nat)
    requires AllProper(texts) && taken + |texts| < MAX_STRINGS
    ensures Parse(Encode(texts) + tail, taken) == Some(texts)
    decreases |texts|
  {
    var units := Encode(texts) + tail;
    if texts == [] {
      assert units == [] + [0] + tail;
      FirstNulIs(units, [], tail);
      ParseStops(units, taken);
    } else {
      hide Parse, FirstNul;
      var rest := Encode(texts[1..]) + tail;
      assert units == texts[0] + [0] + rest;
      ParseOne(units, texts[0], rest, taken);
      ParseInvertsEncode(texts[1..], tail, taken + 1);
      assert texts == [texts[0]] + texts[1..];
    }
  }

  /** Conversely, whatever is read is there, encoded, at the beginning of the units. */
  lemma {:induction false} ParsedIsEncoded(units: seq<nat>, taken: nat)
    requires Parse(units, taken).Some?
    ensures AllProper(Parse(units, taken).value) && taken + |Parse(units, taken).value| < MAX_STRINGS
    ensures Encode(Parse(units, taken).value) <= units
    decreases |units|
  {
    var end := FirstNul(units);
    var texts := Parse(units, taken).value;
    if end > 0 {
      var rest := units[end + 1..];
      ParsedIsEncoded(rest, taken + 1);
      var others := Parse(rest, taken + 1).value;
      assert texts == [units[..end]] + others && texts[1..] == others;
      assert units == units[..end] + [0] + rest;
      assert Encode(texts) == units[..end] + [0] + Encode(others);
    }
  }

  /** Reading succeeds with a list exactly if the units begin with its encoding and it is short. */
  lemma ParseIff(units: seq<nat>, texts: seq<Text>)
    ensures Parse(units, 0) == Some(texts) <==> AllProper(texts) && |texts| < MAX_STRINGS && Encode(texts) <= units
  {
    if Parse(units, 0) == Some(texts) {
      ParsedIsEncoded(units, 0);
    }
    if AllProper(texts) && |texts| < MAX_STRINGS && Encode(texts) <= units {
      ParseInvertsEncode(texts, units[|Encode(texts)|..], 0);
      assert units == Encode(texts) + units[|Encode(texts)|..];
    }
  }

  /** Sixteen well-formed strings are refused. */
  lemma SixteenAreRefused(units: seq<nat>, texts: seq<Text>)
    requires AllProper(texts) && |texts| >= MAX_STRINGS && Encode(texts) <= units
    ensures Parse(units, 0).None?
  {
    if Parse(units, 0).Some? {
      var read := Parse(units, 0).value;
      ParsedIsEncoded(units, 0);
      assert Encode(texts) == units[..|Encode(texts)|] && Encode(read) == units[..|Encode(read)|];
      EncodeIsPrefixFree(read, texts, units);
    }
  }

  lemma FirstUnit(texts: seq<Text>)
    requires AllProper(texts)
    ensures Encode(texts) != [] && (Encode(texts)[0] == 0 <==> texts == [])
  {
    if texts != [] {
      assert Proper(texts[0]) && texts[0][0] in texts[0];
      assert Encode(texts)[0] == texts[0][0];
    }
  }

  /** Two lists encoded at the beginning of the same units are the same list. */
  lemma {:induction false} EncodeIsPrefixFree(a: seq<Text>, b: seq<Text>, units: seq<nat>)
    requires AllProper(a) && AllProper(b) && Encode(a) <= units && Encode(b) <= units
    ensures a == b
    decreases |a|
  {
    if a == [] || b == [] {
      FirstUnit(a);
      FirstUnit(b);
    } else {
      var ra, rb := units[|a[0]| + 1..], units[|b[0]| + 1..];
      assert Encode(a) == a[0] + [0] + Encode(a[1..]) && Encode(b) == b[0] + [0] + Encode(b[1..]);
      assert units == a[0] + [0] + ra && units == b[0] + [0] + rb;
      FirstNulIs(units, a[0], ra);
      FirstNulIs(units, b[0], rb);
      assert a[0] == units[..|a[0]|] == b[0];
      assert Encode(a[1..]) <= ra && Encode(b[1..]) <= rb;
      EncodeIsPrefixFree(a[1..], b[1..], ra);
      assert a == [a[0]] + a[1..] && b == [b[0]] + b[1..];
    }
  }

  // ---------------------------------------------------------------- the buffer

  datatype ReadError = OutsideBuffer | NoTerminator

  /** The text pointer lies in the buffer and is aligned for two-byte units. */
  predicate Placed(size: nat, begin: nat, text: Option<nat>) {
    text.Some? && text.value >= begin && text.value - begin < size && text.value % 2 == 0
  }

  function Capacity(size: nat, begin: nat, text: nat): nat
    requires begin <= text <= begin + size
  {
    (size - (text - begin)) / 2
  }

  /** The little-endian unit at a position of the text. */
  function UnitAt(bytes: seq<Byte>, from: nat, i: nat): nat
    requires from + 2 * i + 1 < |bytes|
  {
    (bytes[from + 2 * i] as nat) + 256 * (bytes[from + 2 * i + 1] as nat)
  }

  function Units(bytes: seq<Byte>, from: nat): seq<nat>
    requires from <= |bytes|
  {
    seq((|bytes| - from) / 2, i requires 0 <= i < (|bytes| - from) / 2 => UnitAt(bytes, from, i))
  }

  /** The units stand in the buffer from this offset on, two bytes each, the low byte first. */
  ghost predicate Spelt(bytes: seq<Byte>, from: nat, units: seq<nat>) {
    && from + 2 * |units| <= |bytes|
    && forall i | 0 <= i < |units| ::
         units[i] < 65536 && bytes[from + 2 * i] == units[i] % 256 && bytes[from + 2 * i + 1] == units[i] / 256
  }

  lemma SpeltIff(bytes: seq<Byte>, from: nat, units: seq<nat>)
    requires from <= |bytes|
    ensures units <= Units(bytes, from) <==> Spelt(bytes, from, units)
  {
    var all := Units(bytes, from);
    if |units| <= |all| {
      forall i | 0 <= i < |units|
        ensures all[i] == units[i] <==> units[i] < 65536 && bytes[from + 2 * i] == units[i] % 256
                                        && bytes[from + 2 * i + 1] == units[i] / 256
      {
        TwoBytes(bytes[from + 2 * i], bytes[from + 2 * i + 1], units[i]);
      }
      assert units <= all <==> forall i | 0 <= i < |units| :: all[i] == units[i];
    }
  }

  lemma TwoBytes(low: Byte, high: Byte, unit: nat)
    ensures low + 256 * high == unit <==> unit < 65536 && low == unit % 256 && high == unit / 256
  {
  }

  /** The first NUL at or after the offset; every unit looked at is inside the buffer. */
  method FindNul(bytes: seq<Byte>, from: nat, offset: nat) returns (end: nat)
    requires from <= |bytes| && offset <= |Units(bytes, from)|
    ensures end == offset + FirstNul(Units(bytes, from)[offset..])
  {
    ghost var units := Units(bytes, from);
    var capacity := (|bytes| - from) / 2;
    end := offset;
    while end < capacity && UnitAt(bytes, from, end) != 0
      invariant offset <= end <= capacity
      invariant end + FirstNul(units[end..]) == offset + FirstNul(units[offset..])
    {
      assert units[end..][1..] == units[end + 1..] && units[end..][0] == units[end];
      end := end + 1;
    }
    assert end < capacity ==> units[end..][0] == 0;
  }

  method ReadBrokerPrivileges(bytes: seq<Byte>, begin: nat, text: Option<nat>) returns (result: Result<seq<Text>, ReadError>)
    ensures result == Err(OutsideBuffer) <==> !Placed(|bytes|, begin, text)
    ensures Placed(|bytes|, begin, text) ==>
              forall texts :: result == Ok(texts) <==>
                              AllProper(texts) && |texts| < MAX_STRINGS && Spelt(bytes, text.value - begin, Encode(texts))
  {
    hide Parse, Encode, AllProper, Spelt, Units;
    if text.None? || text.value < begin || text.value - begin >= |bytes| || text.value % 2 != 0 {
      return Err(OutsideBuffer);
    }
    var from := text.value - begin;
    var capacity := Capacity(|bytes|, begin, text.value);
    ParseAlways(Units(bytes, from));
    forall texts
      ensures Encode(texts) <= Units(bytes, from) <==> Spelt(bytes, from, Encode(texts))
    {
      SpeltIff(bytes, from, Encode(texts));
    }
    UnitCount(bytes, from);
    result := Scan(bytes, from, capacity);
  }

  lemma UnitCount(bytes: seq<Byte>, from: nat)
    requires from <= |bytes|
    ensures |Units(bytes, from)| == (|bytes| - from) / 2
  {
  }

  lemma ParseAlways(units: seq<nat>)
    ensures forall texts :: Parse(units, 0) == Some(texts) <==> AllProper(texts) && |texts| < MAX_STRINGS && Encode(texts) <= units
  {
    hide Parse, Encode, AllProper;
    forall texts
      ensures Parse(units, 0) == Some(texts) <==> AllProper(texts) && |texts| < MAX_STRINGS && Encode(texts) <= units
    {
      ParseIff(units, texts);
    }
  }

  /** The loop over the strings. */
  method Scan(bytes: seq<Byte>, from: nat, capacity: nat) returns (result: Result<seq<Text>, ReadError>)
    requires from <= |bytes| && capacity == |Units(bytes, from)|
    ensures result == match Parse(Units(bytes, from), 0) case Some(texts) => Ok(texts) case None => Err(NoTerminator)
  {
    hide Parse, Units, FirstNul;
    ghost var units := Units(bytes, from);
    var privileges: seq<Text> := [];
    var offset := 0;
    assert units[0..] == units;
    PrependNone(Parse(units, 0));
    while offset < capacity
      invariant 0 <= offset <= capacity
      invariant Parse(units, 0) == Prepend(privileges, Parse(units[offset..], |privileges|))
      decreases capacity - offset
    {
      var end := FindNul(bytes, from, offset);
      ParseStops(units[offset..], |privileges|);
      if end == capacity || |privileges| >= MAX_STRINGS {
        return Err(NoTerminator);
      }
      if end == offset {
        assert privileges + [] == privileges;
        return Ok(privileges);
      }
      var privilege := TextAt(bytes, from, offset, end);
      assert privilege == units[offset..][..end - offset];
      assert units[offset..] == privilege + [0] + units[end + 1..];
      ParseOne(units[offset..], privilege, units[end + 1..], |privileges|);
      PrependOne(privileges, privilege, Parse(units[end + 1..], |privileges| + 1));
      privileges := privileges + [privilege];
      offset := end + 1;
    }
    assert units[offset..] == [];
    ParseStops([], |privileges|);
    result := Err(NoTerminator);
  }

  lemma ParseStops(units: seq<nat>, taken: nat)
    ensures units == [] || FirstNul(units) == |units| || taken >= MAX_STRINGS ==> Parse(units, taken).None?
    ensures FirstNul(units) == 0 < |units| && taken < MAX_STRINGS ==> Parse(units, taken) == Some([])
  {
  }

  method TextAt(bytes: seq<Byte>, from: nat, start: nat, end: nat) returns (text: Text)
    requires from <= |bytes| && start <= end <= |Units(bytes, from)|
    ensures text == Units(bytes, from)[start..end]
  {
    text := [];
    for i := start to end
      invariant text == Units(bytes, from)[start..i]
    {
      text := text + [UnitAt(bytes, from, i)];
    }
  }
}
