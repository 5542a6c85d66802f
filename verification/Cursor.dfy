/**
  Page cursors: unpadded base64url (section 5 of RFC 4648), the separator-joined payload, and the
  signed, customer-bound cursor built from them.
 */
module Cursor {
  import opened Domain

  // ---- base64url without padding ----

  function Symbol(v: nat): char
    requires v < 64
  {
    if v < 26 then (v + 'A' as int) as char
    else if v < 52 then (v - 26 + 'a' as int) as char
    else if v < 62 then (v - 52 + '0' as int) as char
    else if v == 62 then '-'
    else '_'
  }

  function SymbolValue(c: char): (v: Option<nat>)
    ensures v.Some? ==> v.value < 64
  {
    if 'A' <= c <= 'Z' then Some(c as int - 'A' as int)
    else if 'a' <= c <= 'z' then Some(c as int - 'a' as int + 26)
    else if '0' <= c <= '9' then Some(c as int - '0' as int + 52)
    else if c == '-' then Some(62)
    else if c == '_' then Some(63)
    else None
  }

  // The four six-bit values of three bytes.
  function Six0(a: byte): (v: nat)
    ensures v < 64
  {
    a / 4
  }

  function Six1(a: byte, b: byte): (v: nat)
    ensures v < 64
  {
    a % 4 * 16 + b / 16
  }

  function Six2(b: byte, c: byte): (v: nat)
    ensures v < 64
  {
    b % 16 * 4 + c / 64
  }

  function Six3(c: byte): (v: nat)
    ensures v < 64
  {
    c % 64
  }

  function Encode(b: Bytes): string {
    if b == [] then ""
    else if |b| == 1 then [Symbol(Six0(b[0])), Symbol(Six1(b[0], 0))]
    else if |b| == 2 then [Symbol(Six0(b[0])), Symbol(Six1(b[0], b[1])), Symbol(Six2(b[1], 0))]
    else [Symbol(Six0(b[0])), Symbol(Six1(b[0], b[1])), Symbol(Six2(b[1], b[2])), Symbol(Six3(b[2]))] + Encode(b[3..])
  }

  function First(v0: nat, v1: nat): byte
    requires v0 < 64 && v1 < 64
  {
    v0 * 4 + v1 / 16
  }

  function Second(v1: nat, v2: nat): byte
    requires v1 < 64 && v2 < 64
  {
    v1 % 16 * 16 + v2 / 4
  }

  function Third(v2: nat, v3: nat): byte
    requires v2 < 64 && v3 < 64
  {
    v2 % 4 * 64 + v3
  }

  /** Groups of four symbols; one symbol left over, or any other character, is an error; leftover bits are ignored. */
  function DecodeGroups(s: string): Option<Bytes> {
    if s == "" then Some([])
    else if |s| == 1 then None
    else
      match (SymbolValue(s[0]), SymbolValue(s[1]))
      case (Some(v0), Some(v1)) =>
        if |s| == 2 then Some([First(v0, v1)])
        else
          (match SymbolValue(s[2])
           case None => None
           case Some(v2) =>
             if |s| == 3 then Some([First(v0, v1), Second(v1, v2)])
             else
               match (SymbolValue(s[3]), DecodeGroups(s[4..]))
               case (Some(v3), Some(rest)) => Some([First(v0, v1), Second(v1, v2), Third(v2, v3)] + rest)
               case _ => None)
      case _ => None
  }

  /** The decoder skips line breaks wherever they are. */
  function WithoutBreaks(s: string): string {
    if s == "" then "" else (if s[0] == '\r' || s[0] == '\n' then "" else [s[0]]) + WithoutBreaks(s[1..])
  }

  function Decode(s: string): Option<Bytes> { DecodeGroups(WithoutBreaks(s)) }

  lemma SymbolRoundTrip(v: nat)
    requires v < 64
    ensures SymbolValue(Symbol(v)) == Some(v) && Safe(Symbol(v))
  {
  }

  /** Neither a separator nor a line break. */
  predicate Safe(c: char) { c != '.' && c != '|' && c != '\r' && c != '\n' }

  predicate Symbols(s: string) { forall i :: 0 <= i < |s| ==> Safe(s[i]) }

  lemma {:induction false} EncodedSymbols(b: Bytes)
    ensures Symbols(Encode(b))
  {
    forall v | 0 <= v < 64 ensures Safe(Symbol(v)) { SymbolRoundTrip(v); }
    if |b| > 2 { EncodedSymbols(b[3..]); }
  }

  lemma {:induction false} NoBreaks(s: string)
    requires Symbols(s)
    ensures WithoutBreaks(s) == s
  {
    if s != "" {
      NoBreaks(s[1..]);
      assert s == [s[0]] + s[1..];
    }
  }

  lemma {:induction false} GroupsRoundTrip(b: Bytes)
    ensures DecodeGroups(Encode(b)) == Some(b)
  {
    hide Symbol, SymbolValue, First, Second, Third, Six0, Six1, Six2, Six3;
    forall v | 0 <= v < 64 ensures SymbolValue(Symbol(v)) == Some(v) { SymbolRoundTrip(v); }
    if b == [] {
    } else if |b| == 1 {
      GroupOfThree(b[0], 0, 0);
      assert Encode(b) == [Symbol(Six0(b[0])), Symbol(Six1(b[0], 0))];
      assert b == [b[0]];
    } else if |b| == 2 {
      GroupOfThree(b[0], b[1], 0);
      assert Encode(b) == [Symbol(Six0(b[0])), Symbol(Six1(b[0], b[1])), Symbol(Six2(b[1], 0))];
      assert b == [b[0], b[1]];
    } else {
      GroupOfThree(b[0], b[1], b[2]);
      GroupsRoundTrip(b[3..]);
      assert Encode(b)[4..] == Encode(b[3..]);
      assert b == [b[0], b[1], b[2]] + b[3..];
    }
  }

  /** Three bytes survive being cut into four six-bit values. */
  lemma GroupOfThree(a: byte, b: byte, c: byte)
    ensures First(Six0(a), Six1(a, b)) == a
    ensures Second(Six1(a, b), Six2(b, c)) == b
    ensures Third(Six2(b, c), Six3(c)) == c
  {
  }

  /** Decoding what was encoded gives it back, whatever the bytes. */
  lemma Base64RoundTrip(b: Bytes)
    ensures Decode(Encode(b)) == Some(b)
  {
    EncodedSymbols(b);
    NoBreaks(Encode(b));
    GroupsRoundTrip(b);
  }

  // ---- joining and splitting ----

  const FIELD_SEPARATOR: byte := 0x7c
  const PART_SEPARATOR := '.'

  function Join(fields: seq<Bytes>): Bytes
    requires fields != []
  {
    if |fields| == 1 then fields[0] else fields[0] + [FIELD_SEPARATOR] + Join(fields[1..])
  }

  /** strings.Split on one byte: always at least one field. */
  function Split(b: Bytes): (fields: seq<Bytes>)
    ensures fields != []
  {
    if b == [] then [[]]
    else
      var rest := Split(b[1..]);
      if b[0] == FIELD_SEPARATOR then [[]] + rest else [[b[0]] + rest[0]] + rest[1..]
  }

  predicate Plain(field: Bytes) { FIELD_SEPARATOR !in field }

  lemma {:induction false} SplitPlain(field: Bytes)
    requires Plain(field)
    ensures Split(field) == [field]
  {
    if field != [] {
      assert Plain(field[1..]) by { forall x | x in field[1..] ensures x in field {} }
      SplitPlain(field[1..]);
      assert field == [field[0]] + field[1..];
    }
  }

  /** The first field ends at the first separator. */
  lemma {:induction false} SplitFirst(field: Bytes, rest: Bytes)
    requires Plain(field)
    ensures Split(field + [FIELD_SEPARATOR] + rest) == [field] + Split(rest)
  {
    var b := field + [FIELD_SEPARATOR] + rest;
    if field == [] {
      assert b[1..] == rest;
    } else {
      assert b[1..] == field[1..] + [FIELD_SEPARATOR] + rest;
      assert Plain(field[1..]) by { forall x | x in field[1..] ensures x in field {} }
      SplitFirst(field[1..], rest);
      assert field == [field[0]] + field[1..];
    }
  }

  lemma {:induction false} SplitJoin(fields: seq<Bytes>)
    requires fields != [] && forall f :: f in fields ==> Plain(f)
    ensures Split(Join(fields)) == fields
  {
    if |fields| == 1 {
      SplitPlain(fields[0]);
    } else {
      SplitJoin(fields[1..]);
      SplitFirst(fields[0], Join(fields[1..]));
    }
  }

  /** Splitting gives one field more than there are separators. */
  lemma {:induction false} SplitCount(b: Bytes)
    ensures |Split(b)| == 1 + multiset(b)[FIELD_SEPARATOR]
  {
    if b != [] {
      assert b == [b[0]] + b[1..];
      SplitCount(b[1..]);
    }
  }

  lemma {:induction false} JoinCount(fields: seq<Bytes>)
    requires fields != []
    ensures multiset(Join(fields))[FIELD_SEPARATOR] >= |fields| - 1 + multiset(fields[0])[FIELD_SEPARATOR]
  {
    if |fields| > 1 { JoinCount(fields[1..]); }
  }

  /** strings.Cut on the part separator: before and after its first occurrence. */
  function Cut(s: string): Option<(string, string)> {
    if s == "" then None
    else if s[0] == PART_SEPARATOR then Some(("", s[1..]))
    else match Cut(s[1..])
         case None => None
         case Some((before, after)) => Some(([s[0]] + before, after))
  }

  lemma {:induction false} CutJoined(before: string, after: string)
    requires PART_SEPARATOR !in before
    ensures Cut(before + [PART_SEPARATOR] + after) == Some((before, after))
  {
    var s := before + [PART_SEPARATOR] + after;
    if before == "" {
      assert s[1..] == after;
    } else {
      assert s[1..] == before[1..] + [PART_SEPARATOR] + after;
      CutJoined(before[1..], after);
      assert before == [before[0]] + before[1..];
    }
  }

  // ---- the cursor ----

  /** The foreign parts: the keyed MAC, RFC 3339 time text, and uuid text. */
  datatype Codec = Codec(mac: Bytes -> Bytes, timeText: Time -> Bytes, timeValue: Bytes -> Option<Time>,
      idText: nat -> Bytes, idValue: Bytes -> Option<nat>)

  /** Text forms read back as written and never contain the separator. */
  ghost predicate Faithful(k: Codec) {
    && (forall t: Time :: k.timeValue(k.timeText(t)) == Some(t) && Plain(k.timeText(t)))
    && (forall n: nat :: k.idValue(k.idText(n)) == Some(n) && Plain(k.idText(n)))
  }

  /** The sort key of a history row. */
  datatype Key = Key(at: Time, entry: nat, posting: nat)

  function PayloadOf(k: Codec, customer: Bytes, key: Key): Bytes {
    Join([customer, k.timeText(key.at), k.idText(key.entry), k.idText(key.posting)])
  }

  function EncodeCursor(k: Codec, customer: Bytes, key: Key): string {
    var payload := PayloadOf(k, customer, key);
    Encode(payload) + [PART_SEPARATOR] + Encode(k.mac(payload))
  }

  function ParsePayload(k: Codec, customer: Bytes, payload: Bytes): Option<Key> {
    var fields := Split(payload);
    if |fields| != 4 then None
    else if fields[0] != customer then None
    else
      match (k.timeValue(fields[1]), k.idValue(fields[2]), k.idValue(fields[3]))
      case (Some(at), Some(entry), Some(posting)) => Some(Key(at, entry, posting))
      case _ => None
  }

  /** None is the invalid-cursor error. */
  function DecodeCursor(k: Codec, customer: Bytes, cursor: string): Option<Key> {
    match Cut(cursor)
    case None => None
    case Some((encodedPayload, encodedMac)) =>
      match (Decode(encodedPayload), Decode(encodedMac))
      case (Some(payload), Some(tag)) => if tag != k.mac(payload) then None else ParsePayload(k, customer, payload)
      case _ => None
  }

  lemma CursorOpens(k: Codec, minter: Bytes, key: Key, reader: Bytes)
    ensures DecodeCursor(k, reader, EncodeCursor(k, minter, key)) == ParsePayload(k, reader, PayloadOf(k, minter, key))
  {
    var payload := PayloadOf(k, minter, key);
    Base64RoundTrip(payload);
    Base64RoundTrip(k.mac(payload));
    EncodedSymbols(payload);
    CutJoined(Encode(payload), Encode(k.mac(payload)));
    hide Encode, Decode, ParsePayload, PayloadOf, Cut;
  }

  /**
    A minted cursor opens, to exactly the triple it was minted from, for its own customer and for
    no other; and it opens at all exactly when the customer id is free of the separator.
   */
  lemma CursorRoundTrip(k: Codec, minter: Bytes, key: Key, reader: Bytes)
    requires Faithful(k)
    ensures DecodeCursor(k, reader, EncodeCursor(k, minter, key))
         == if reader == minter && Plain(minter) then Some(key) else None
  {
    var fields := [minter, k.timeText(key.at), k.idText(key.entry), k.idText(key.posting)];
    CursorOpens(k, minter, key, reader);
    if Plain(minter) {
      SplitJoin(fields);
    } else {
      JoinCount(fields);
      SplitCount(Join(fields));
      assert FIELD_SEPARATOR in multiset(minter);
    }
  }

  /** Whatever opens carries the MAC of its own payload, and names its reader in it. */
  lemma OpenedIsSigned(k: Codec, reader: Bytes, cursor: string)
    requires DecodeCursor(k, reader, cursor).Some?
    ensures Cut(cursor).Some?
    ensures var (encodedPayload, encodedMac) := Cut(cursor).value;
            && Decode(encodedPayload).Some? && Decode(encodedMac) == Some(k.mac(Decode(encodedPayload).value))
            && Split(Decode(encodedPayload).value)[0] == reader
  {
  }
}
