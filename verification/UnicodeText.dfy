/**
 Owner tokens as stored bytes (section 3 of RFC 3629) and as JavaScript strings (section 2.2 of RFC 2781).
 A Dafny `string` is a sequence of Unicode scalar values.
 */
module UnicodeText {
  import opened Outcomes

  type Byte = b: int | 0 <= b < 0x100
  type Unit = u: int | 0 <= u < 0x1_0000

  const MAX_CODEPOINTS := 512
  const MAX_UTF8_BYTES := MAX_CODEPOINTS * 4

  function Utf8Char(c: char): (bytes: seq<Byte>)
    ensures 1 <= |bytes| <= 4
  {
    var n := c as int;
    if n < 0x80 then [n]
    else if n < 0x800 then [0xC0 + n / 0x40, 0x80 + n % 0x40]
    else if n < 0x1_0000 then [0xE0 + n / 0x1000, 0x80 + n / 0x40 % 0x40, 0x80 + n % 0x40]
    else [0xF0 + n / 0x4_0000, 0x80 + n / 0x1000 % 0x40, 0x80 + n / 0x40 % 0x40, 0x80 + n % 0x40]
  }

  function Utf8(s: string): seq<Byte> {
    if s == "" then [] else Utf8Char(s[0]) + Utf8(s[1..])
  }

  predicate Tail(b: Byte) {
    0x80 <= b < 0xC0
  }

  function Two(b0: int, b1: int): int {
    (b0 - 0xC0) * 0x40 + (b1 - 0x80)
  }

  function Three(b0: int, b1: int, b2: int): int {
    (b0 - 0xE0) * 0x1000 + (b1 - 0x80) * 0x40 + (b2 - 0x80)
  }

  function Four(b0: int, b1: int, b2: int, b3: int): int {
    (b0 - 0xF0) * 0x4_0000 + (b1 - 0x80) * 0x1000 + (b2 - 0x80) * 0x40 + (b3 - 0x80)
  }

  /** The first scalar of a byte string and its width, by the syntax of section 4 of RFC 3629. */
  function FirstChar(b: seq<Byte>): (r: Option<(char, nat)>)
    ensures r.Some? ==> 1 <= r.value.1 <= |b|
  {
    if b == [] then None
    else if b[0] < 0x80 then Some((b[0] as char, 1))
    else if 0xC2 <= b[0] < 0xE0 then
      if |b| >= 2 && Tail(b[1]) then Some((Two(b[0], b[1]) as char, 2)) else None
    else if 0xE0 <= b[0] < 0xF0 then
      if |b| >= 3 && Tail(b[1]) && Tail(b[2]) && (b[0] == 0xE0 ==> b[1] >= 0xA0) && (b[0] == 0xED ==> b[1] < 0xA0) then
        Some((Three(b[0], b[1], b[2]) as char, 3))
      else None
    else if 0xF0 <= b[0] < 0xF5 then
      if |b| >= 4 && Tail(b[1]) && Tail(b[2]) && Tail(b[3]) && (b[0] == 0xF0 ==> b[1] >= 0x90) && (b[0] == 0xF4 ==> b[1] < 0x90) then
        Some((Four(b[0], b[1], b[2], b[3]) as char, 4))
      else None
    else None
  }

  /** Strict decoding: the whole byte string, or nothing. */
  function Decode(b: seq<Byte>): Option<string> {
    if b == [] then Some("")
    else
      var first := FirstChar(b);
      if first.None? then None
      else
        var rest := Decode(b[first.value.1..]);
        if rest.None? then None else Some([first.value.0] + rest.value)
  }

  lemma {:induction false} Unpack(n: nat)
    ensures n < 0x800 ==> Two(0xC0 + n / 0x40, 0x80 + n % 0x40) == n
    ensures n < 0x1_0000 ==> Three(0xE0 + n / 0x1000, 0x80 + n / 0x40 % 0x40, 0x80 + n % 0x40) == n
    ensures Four(0xF0 + n / 0x4_0000, 0x80 + n / 0x1000 % 0x40, 0x80 + n / 0x40 % 0x40, 0x80 + n % 0x40) == n
  {
    var a, b := n / 0x40, n / 0x1000;
    assert n / 0x40 / 0x40 == b && b / 0x40 == n / 0x4_0000;
  }

  lemma {:induction false} FirstCharOfEncoded(c: char, rest: seq<Byte>)
    ensures FirstChar(Utf8Char(c) + rest) == Some((c, |Utf8Char(c)|))
  {
    var n := c as int;
    Unpack(n);
    var e := Utf8Char(c);
    var b := e + rest;
    assert b[0] == e[0];
    if n >= 0x80 {
      assert b[1] == e[1];
      if n >= 0x800 {
        assert b[2] == e[2];
        if n >= 0x1_0000 {
          assert b[3] == e[3];
        }
      }
    }
  }

  lemma {:induction false} Repack(h: int, z: int, y: int, x: int)
    requires 0 <= x < 0x40 && 0 <= y < 0x40 && 0 <= z < 0x40
    ensures var n := ((h * 0x40 + z) * 0x40 + y) * 0x40 + x;
            && n % 0x40 == x && n / 0x40 % 0x40 == y
            && n / 0x1000 % 0x40 == z && n / 0x1000 == h * 0x40 + z && n / 0x4_0000 == h
  {
    var n := ((h * 0x40 + z) * 0x40 + y) * 0x40 + x;
    assert n / 0x40 == (h * 0x40 + z) * 0x40 + y;
    assert n / 0x1000 == n / 0x40 / 0x40;
    assert n / 0x4_0000 == n / 0x1000 / 0x40;
  }

  lemma {:induction false} EncodedFirstChar(b: seq<Byte>)
    requires FirstChar(b).Some?
    ensures Utf8Char(FirstChar(b).value.0) == b[..FirstChar(b).value.1]
  {
    var (c, width) := FirstChar(b).value;
    if width == 2 {
      Repack(0, 0, b[0] as int - 0xC0, b[1] as int - 0x80);
      assert (c as int) == (b[0] as int - 0xC0) * 0x40 + (b[1] as int - 0x80);
      assert Utf8Char(c) == [b[0], b[1]];
    } else if width == 3 {
      Repack(0, b[0] as int - 0xE0, b[1] as int - 0x80, b[2] as int - 0x80);
      assert (c as int) == (b[0] as int - 0xE0) * 0x1000 + (b[1] as int - 0x80) * 0x40 + (b[2] as int - 0x80);
      assert Utf8Char(c) == [b[0], b[1], b[2]];
    } else if width == 4 {
      Repack(b[0] as int - 0xF0, b[1] as int - 0x80, b[2] as int - 0x80, b[3] as int - 0x80);
      assert (c as int) ==
        (b[0] as int - 0xF0) * 0x4_0000 + (b[1] as int - 0x80) * 0x1000 + (b[2] as int - 0x80) * 0x40 + (b[3] as int - 0x80);
      assert Utf8Char(c) == [b[0], b[1], b[2], b[3]];
    }
  }

  lemma {:induction false} DecodeInvertsUtf8(s: string)
    ensures Decode(Utf8(s)) == Some(s)
  {
    if s != "" {
      DecodeInvertsUtf8(s[1..]);
      FirstCharOfEncoded(s[0], Utf8(s[1..]));
      assert Utf8(s)[|Utf8Char(s[0])|..] == Utf8(s[1..]);
      assert [s[0]] + s[1..] == s;
    }
  }

  lemma {:induction false} Utf8InvertsDecode(b: seq<Byte>)
    requires Decode(b).Some?
    ensures Utf8(Decode(b).value) == b
  {
    if b != [] {
      var width := FirstChar(b).value.1;
      EncodedFirstChar(b);
      Utf8InvertsDecode(b[width..]);
      assert Decode(b).value[1..] == Decode(b[width..]).value;
    }
  }

  lemma {:induction false} Utf8Length(s: string)
    ensures |s| <= |Utf8(s)| <= 4 * |s|
  {
    if s != "" {
      Utf8Length(s[1..]);
    }
  }

  /** What acquisition admits as an owner token. */
  predicate AdmittedOwner(owner: string) {
    owner != "" && |owner| <= MAX_CODEPOINTS
  }

  /**
   The bounded owner read shared by inspection and release. `chunk` decides, position by position, how much of
   the requested range a read delivers, so it stands for every pattern of short reads.
   */
  method ReadOwner(file: seq<Byte>, chunk: nat -> nat) returns (r: Option<seq<Byte>>)
    ensures r == if |file| <= MAX_UTF8_BYTES && Decode(file).Some? then Some(file) else None
  {
    var buffer := new Byte[MAX_UTF8_BYTES + 1];
    var total := 0;
    while total < buffer.Length
      invariant 0 <= total <= buffer.Length && total <= |file|
      invariant buffer[..total] == file[..total]
    {
      var available := if |file| < buffer.Length then |file| - total else buffer.Length - total;
      if available == 0 {
        break;
      }
      var read := 1 + chunk(total) % available;
      var got := file[total..total + read];
      forall i | 0 <= i < read {
        buffer[total + i] := got[i];
      }
      assert buffer[..total + read] == file[..total + read];
      total := total + read;
    }
    if total > MAX_UTF8_BYTES {
      return None;
    }
    assert file[..total] == file;
    var bytes := buffer[..total];
    r := if Decode(bytes).Some? then Some(bytes) else None;
  }

  /** An admitted token always fits the byte bound, so release reads back exactly what was written. */
  lemma {:induction false} OwnerReadsBack(owner: string)
    requires AdmittedOwner(owner)
    ensures 0 < |Utf8(owner)| <= MAX_UTF8_BYTES && Decode(Utf8(owner)) == Some(owner)
  {
    Utf8Length(owner);
    DecodeInvertsUtf8(owner);
  }

  const BYTE_ORDER_MARK := '\U{FEFF}'

  /** A fatal `TextDecoder("utf-8")`, which drops one leading byte order mark. */
  function TextDecoderDecode(b: seq<Byte>): Option<string> {
    Decode(if |b| >= 3 && b[0] == 0xEF && b[1] == 0xBB && b[2] == 0xBF then b[3..] else b)
  }

  /** In TypeScript the read-back equals the owner exactly when the owner does not start with that mark. */
  lemma {:induction false} TypeScriptReadsBack(owner: string)
    ensures TextDecoderDecode(Utf8(owner)) == Some(owner) <==> !(owner != "" && owner[0] == BYTE_ORDER_MARK)
  {
    var b := Utf8(owner);
    DecodeInvertsUtf8(owner);
    if owner != "" {
      DecodeInvertsUtf8(owner[1..]);
      FirstCharOfEncoded(owner[0], Utf8(owner[1..]));
      if owner[0] == BYTE_ORDER_MARK {
        assert b[3..] == Utf8(owner[1..]);
      } else if |b| >= 3 && b[0] == 0xEF && b[1] == 0xBB && b[2] == 0xBF {
        assert false;
      }
    }
  }

  // ---- UTF-16 ----

  function Utf16Char(c: char): (units: seq<Unit>)
    ensures 1 <= |units| <= 2
  {
    var n := c as int;
    if n < 0x1_0000 then [n] else [0xD800 + (n - 0x1_0000) / 0x400, 0xDC00 + (n - 0x1_0000) % 0x400]
  }

  function Utf16(s: string): seq<Unit> {
    if s == "" then [] else Utf16Char(s[0]) + Utf16(s[1..])
  }

  predicate High(u: Unit) {
    0xD800 <= u <= 0xDBFF
  }

  predicate Low(u: Unit) {
    0xDC00 <= u <= 0xDFFF
  }

  ghost predicate Encodes(units: seq<Unit>, s: string) {
    Utf16(s) == units
  }

  ghost predicate WellFormed(units: seq<Unit>) {
    exists s: string :: Encodes(units, s)
  }

  lemma {:induction false} WellFormedTail(first: char, rest: seq<Unit>)
    ensures WellFormed(Utf16Char(first) + rest) <==> WellFormed(rest)
  {
    var units := Utf16Char(first) + rest;
    if s: string :| Encodes(units, s) {
      assert s != "";
      assert units[0] == Utf16Char(s[0])[0] && units[0] == Utf16Char(first)[0];
      assert |Utf16Char(first)| == 2 ==> units[1] == Utf16Char(first)[1];
      assert |Utf16Char(s[0])| == 2 ==> units[1] == Utf16Char(s[0])[1];
      assert s[0] == first;
      assert rest == units[|Utf16Char(first)|..] == Utf16(s[1..]);
      assert Encodes(rest, s[1..]);
    }
    if s: string :| Encodes(rest, s) {
      assert ([first] + s)[1..] == s;
      assert Encodes(units, [first] + s);
    }
  }

  lemma {:induction false} EncodedStart(s: string)
    ensures s != "" ==>
              var u := Utf16(s);
              !Low(u[0]) && (High(u[0]) ==> |u| > 1 && Low(u[1]))
  {
    if s != "" {
      var e := Utf16Char(s[0]);
      assert Utf16(s)[0] == e[0];
      assert |e| == 2 ==> Utf16(s)[1] == e[1];
    }
  }

  lemma {:induction false} LoneIsIllFormed(units: seq<Unit>)
    requires units != []
    requires Low(units[0]) || (High(units[0]) && !(|units| > 1 && Low(units[1])))
    ensures !WellFormed(units)
  {
    forall s: string ensures !Encodes(units, s) {
      EncodedStart(s);
    }
  }

  /** The index loop of the owner and path admission check; it decides well-formedness exactly. */
  method HasLoneSurrogate(value: seq<Unit>) returns (lone: bool)
    ensures lone <==> !WellFormed(value)
  {
    var index := 0;
    assert value[0..] == value;
    while index < |value|
      invariant 0 <= index <= |value|
      invariant WellFormed(value) <==> WellFormed(value[index..])
    {
      var code, rest := value[index], value[index..];
      if 0xD800 <= code <= 0xDBFF {
        if !(index + 1 < |value| && 0xDC00 <= value[index + 1] <= 0xDFFF) {
          LoneIsIllFormed(rest);
          return true;
        }
        ghost var c := (0x1_0000 + (code as int - 0xD800) * 0x400 + (value[index + 1] as int - 0xDC00)) as char;
        assert rest == Utf16Char(c) + value[index + 2..];
        WellFormedTail(c, value[index + 2..]);
        index := index + 2;
      } else {
        if 0xDC00 <= code <= 0xDFFF {
          LoneIsIllFormed(rest);
          return true;
        }
        assert rest == Utf16Char(code as char) + value[index + 1..];
        WellFormedTail(code as char, value[index + 1..]);
        index := index + 1;
      }
    }
    assert value[index..] == [] && Encodes([], "");
    lone := false;
  }
}
