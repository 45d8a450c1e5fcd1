/**
 * `Option` is Python's `None` or a value; `Outcome` is a call that either
 * returns a value or lets an exception escape to its caller.
 */
module Wrappers {
  datatype Option<+T> = None | Some(value: T)

  datatype Outcome<+T> = Returned(value: T) | Raised
}

/**
 * The serialisation both cache tiers store: a stand-in for `json.dumps` and
 * `json.loads`. A `Value` is a JSON document; `Encode` turns it into text and
 * `Decode` reads text back, failing (as `json.loads` raises) on text that is
 * not a single well-formed document.
 *
 * The text format is a self-delimiting tagged one, not JSON's grammar: the
 * cache only relies on the two facts proved here, that `Decode` inverts
 * `Encode` and that encoded text is never empty.
 */
module Json {
  import opened Wrappers

  datatype Value =
    | Null
    | Bool(b: bool)
    | Num(n: int)
    | Str(s: string)
    | Arr(items: seq<Value>)
    | Obj(members: seq<Member>)

  datatype Member = Member(name: string, value: Value)

  predicate IsDigit(c: char) {
    '0' <= c <= '9'
  }

  predicate AllDigits(t: string) {
    forall i :: 0 <= i < |t| ==> IsDigit(t[i])
  }

  function Digit(d: nat): (c: char)
    requires d < 10
    ensures IsDigit(c) && c as int - '0' as int == d
  {
    ('0' as int + d) as char
  }

  /** The decimal numeral of `n`, most significant digit first. */
  function NatText(n: nat): (t: string)
    ensures t != [] && AllDigits(t)
  {
    (if n < 10 then "" else NatText(n / 10)) + [Digit(n % 10)]
  }

  /** The number a string of decimal digits denotes. */
  function DigitsValue(t: string): nat
    requires AllDigits(t)
  {
    if t == [] then 0
    else DigitsValue(t[..|t| - 1]) * 10 + (t[|t| - 1] as int - '0' as int)
  }

  lemma {:induction false} DigitsValueOfNatText(n: nat)
    ensures DigitsValue(NatText(n)) == n
  {
    var t := NatText(n);
    if n >= 10 {
      assert t[..|t| - 1] == NatText(n / 10);
      DigitsValueOfNatText(n / 10);
    } else {
      assert t[..|t| - 1] == [];
    }
  }

  /** Splits `s` into its longest prefix of digits and the rest. */
  function SpanDigits(s: string): (r: (string, string))
    ensures r.0 + r.1 == s && AllDigits(r.0)
    ensures r.1 == [] || !IsDigit(r.1[0])
  {
    if s != [] && IsDigit(s[0]) then
      var (d, rest) := SpanDigits(s[1..]);
      assert s == [s[0]] + s[1..];
      ([s[0]] + d, rest)
    else ([], s)
  }

  lemma {:induction false} SpanDigitsOf(d: string, t: string)
    requires AllDigits(d)
    requires t == [] || !IsDigit(t[0])
    ensures SpanDigits(d + t) == (d, t)
  {
    if d != [] {
      var s := d + t;
      assert s[0] == d[0] && IsDigit(s[0]);
      assert s[1..] == d[1..] + t;
      SpanDigitsOf(d[1..], t);
      assert [d[0]] + d[1..] == d;
    } else {
      assert d + t == t;
    }
  }

  /** Reads a count written as `NatText(n) + ":"` at the head of `s`. */
  function ReadCount(s: string): (r: Option<(nat, string)>)
    ensures r.Some? ==> |r.value.1| < |s|
  {
    var (d, rest) := SpanDigits(s);
    if d != [] && rest != [] && rest[0] == ':' then Some((DigitsValue(d), rest[1..]))
    else None
  }

  lemma ReadCountOf(n: nat, t: string)
    ensures ReadCount(NatText(n) + ":" + t) == Some((n, t))
  {
    assert NatText(n) + ":" + t == NatText(n) + (":" + t);
    SpanDigitsOf(NatText(n), ":" + t);
    DigitsValueOfNatText(n);
    assert (":" + t)[1..] == t;
  }

  /** A tag character followed by a count. */
  function Header(tag: char, n: nat): string {
    [tag] + NatText(n) + ":"
  }

  function Encode(v: Value): (t: string)
    ensures t != []
  {
    match v
    case Null => "n"
    case Bool(b) => if b then "t" else "f"
    case Num(n) => if n >= 0 then Header('i', n) else Header('m', -n)
    case Str(s) => Header('s', |s|) + s
    case Arr(items) => Header('a', |items|) + EncodeItems(items)
    case Obj(members) => Header('o', |members|) + EncodeMembers(members)
  }

  function EncodeItems(items: seq<Value>): string {
    if items == [] then "" else Encode(items[0]) + EncodeItems(items[1..])
  }

  function EncodeMember(m: Member): string {
    NatText(|m.name|) + ":" + m.name + Encode(m.value)
  }

  function EncodeMembers(members: seq<Member>): string {
    if members == [] then "" else EncodeMember(members[0]) + EncodeMembers(members[1..])
  }

  /** Reads one value at the head of `s`, returning it and the text after it. */
  function DecodeValue(s: string): (r: Option<(Value, string)>)
    ensures r.Some? ==> |r.value.1| < |s|
    decreases |s|, 0, 0
  {
    if s == [] then None
    else if s[0] == 'n' then Some((Null, s[1..]))
    else if s[0] == 't' then Some((Bool(true), s[1..]))
    else if s[0] == 'f' then Some((Bool(false), s[1..]))
    else match ReadCount(s[1..])
      case None => None
      case Some((n, rest)) => DecodeBody(s[0], n, rest)
  }

  /** Reads what follows `Header(tag, n)`. */
  function DecodeBody(tag: char, n: nat, rest: string): (r: Option<(Value, string)>)
    ensures r.Some? ==> |r.value.1| <= |rest|
    decreases |rest|, 2, 0
  {
    if tag == 'i' then Some((Num(n), rest))
    else if tag == 'm' then Some((Num(0 - n), rest))
    else if tag == 's' then
      if n <= |rest| then Some((Str(rest[..n]), rest[n..])) else None
    else if tag == 'a' then
      match DecodeItems(rest, n)
      case None => None
      case Some((items, after)) => Some((Arr(items), after))
    else if tag == 'o' then
      match DecodeMembers(rest, n)
      case None => None
      case Some((members, after)) => Some((Obj(members), after))
    else None
  }

  /** Reads `n` values in a row at the head of `s`. */
  function DecodeItems(s: string, n: nat): (r: Option<(seq<Value>, string)>)
    ensures r.Some? ==> |r.value.1| <= |s| && |r.value.0| == n
    decreases |s|, 1, n
  {
    if n == 0 then Some(([], s))
    else match DecodeValue(s)
      case None => None
      case Some((v, rest)) =>
        match DecodeItems(rest, n - 1)
        case None => None
        case Some((vs, after)) => Some(([v] + vs, after))
  }

  /** Reads one name/value pair at the head of `s`. */
  function DecodeMember(s: string): (r: Option<(Member, string)>)
    ensures r.Some? ==> |r.value.1| < |s|
    decreases |s|, 0, 1
  {
    match ReadCount(s)
    case None => None
    case Some((len, rest)) =>
      if len > |rest| then None
      else match DecodeValue(rest[len..])
        case None => None
        case Some((v, after)) => Some((Member(rest[..len], v), after))
  }

  /** Reads `n` name/value pairs in a row at the head of `s`. */
  function DecodeMembers(s: string, n: nat): (r: Option<(seq<Member>, string)>)
    ensures r.Some? ==> |r.value.1| <= |s| && |r.value.0| == n
    decreases |s|, 1, n
  {
    if n == 0 then Some(([], s))
    else match DecodeMember(s)
      case None => None
      case Some((m, rest)) =>
        match DecodeMembers(rest, n - 1)
        case None => None
        case Some((ms, after)) => Some(([m] + ms, after))
  }

  /** `json.loads`: the one value `s` holds, or `None` when `s` is malformed. */
  function Decode(s: string): Option<Value> {
    match DecodeValue(s)
    case Some((v, rest)) => if rest == [] then Some(v) else None
    case None => None
  }

  lemma HeaderThenBody(tag: char, n: nat, rest: string)
    requires tag !in "ntf"
    ensures DecodeValue(Header(tag, n) + rest) == DecodeBody(tag, n, rest)
  {
    var s := Header(tag, n) + rest;
    assert s[0] == tag;
    assert s[1..] == NatText(n) + ":" + rest;
    ReadCountOf(n, rest);
  }

  lemma {:induction false} DecodeValueEncode(v: Value, t: string)
    ensures DecodeValue(Encode(v) + t) == Some((v, t))
    decreases v, 0
  {
    match v
    case Null =>
    case Bool(b) =>
    case Num(n) => DecodeNumEncode(n, t);
    case Str(x) => DecodeStrEncode(x, t);
    case Arr(items) => DecodeArrEncode(items, t);
    case Obj(members) => DecodeObjEncode(members, t);
  }

  lemma DecodeNumEncode(n: int, t: string)
    ensures DecodeValue(Encode(Num(n)) + t) == Some((Num(n), t))
  {
    if n >= 0 {
      HeaderThenBody('i', n, t);
    } else {
      HeaderThenBody('m', -n, t);
    }
  }

  lemma DecodeStrEncode(x: string, t: string)
    ensures DecodeValue(Encode(Str(x)) + t) == Some((Str(x), t))
  {
    assert Encode(Str(x)) + t == Header('s', |x|) + (x + t);
    HeaderThenBody('s', |x|, x + t);
    assert (x + t)[..|x|] == x && (x + t)[|x|..] == t;
  }

  lemma {:induction false} DecodeArrEncode(items: seq<Value>, t: string)
    ensures DecodeValue(Encode(Arr(items)) + t) == Some((Arr(items), t))
    decreases items, 1
  {
    assert Encode(Arr(items)) + t == Header('a', |items|) + (EncodeItems(items) + t);
    HeaderThenBody('a', |items|, EncodeItems(items) + t);
    DecodeItemsEncode(items, t);
  }

  lemma {:induction false} DecodeObjEncode(members: seq<Member>, t: string)
    ensures DecodeValue(Encode(Obj(members)) + t) == Some((Obj(members), t))
    decreases members, 1
  {
    assert Encode(Obj(members)) + t == Header('o', |members|) + (EncodeMembers(members) + t);
    HeaderThenBody('o', |members|, EncodeMembers(members) + t);
    DecodeMembersEncode(members, t);
  }

  lemma {:induction false} DecodeItemsEncode(items: seq<Value>, t: string)
    ensures DecodeItems(EncodeItems(items) + t, |items|) == Some((items, t))
    decreases items, 0
  {
    if items != [] {
      var rest := EncodeItems(items[1..]) + t;
      assert EncodeItems(items) + t == Encode(items[0]) + rest;
      DecodeValueEncode(items[0], rest);
      DecodeItemsEncode(items[1..], t);
      assert [items[0]] + items[1..] == items;
    } else {
      assert EncodeItems(items) + t == t;
    }
  }

  lemma {:induction false} DecodeMemberEncode(m: Member, t: string)
    ensures DecodeMember(EncodeMember(m) + t) == Some((m, t))
    decreases m
  {
    var tail := Encode(m.value) + t;
    var rest := m.name + tail;
    assert EncodeMember(m) + t == NatText(|m.name|) + ":" + rest;
    ReadCountOf(|m.name|, rest);
    assert rest[..|m.name|] == m.name;
    assert rest[|m.name|..] == tail;
    DecodeValueEncode(m.value, t);
  }

  lemma {:induction false} DecodeMembersEncode(members: seq<Member>, t: string)
    ensures DecodeMembers(EncodeMembers(members) + t, |members|) == Some((members, t))
    decreases members, 0
  {
    if members != [] {
      var rest := EncodeMembers(members[1..]) + t;
      assert EncodeMembers(members) + t == EncodeMember(members[0]) + rest;
      DecodeMemberEncode(members[0], rest);
      DecodeMembersEncode(members[1..], t);
      assert [members[0]] + members[1..] == members;
    } else {
      assert EncodeMembers(members) + t == t;
    }
  }

  /** What `json.loads(json.dumps(v))` promises: the value comes back. */
  lemma DecodeEncode(v: Value)
    ensures Decode(Encode(v)) == Some(v)
  {
    DecodeValueEncode(v, []);
    assert Encode(v) + [] == Encode(v);
  }
}
