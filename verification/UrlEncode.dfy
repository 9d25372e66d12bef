/** The bounded percent-encoder of the control client, with the decoding of RFC 3986 as its partner. */
module UrlEncode {
  import opened Basics

  /** Section 2.3 of RFC 3986: letters, digits, '-', '.', '_' and '~'. */
  predicate Unreserved(b: int) {
    97 <= b <= 122 || 65 <= b <= 90 || 48 <= b <= 57 || b == 45 || b == 46 || b == 95 || b == 126
  }

  const UPPER: string := "ABCDEFGHIJKLMNOPQRSTUVWXYZ"
  const LOWER: string := "abcdefghijklmnopqrstuvwxyz"
  const FIGURES: string := "0123456789"
  const MARKS: string := "-._~"

  /** The unreserved characters, spelled out. */
  predicate Plain(b: Byte) {
    b as char in UPPER || b as char in LOWER || b as char in FIGURES || b as char in MARKS
  }

  lemma UpperExact(b: Byte)
    ensures b as char in UPPER <==> 65 <= b <= 90
  {
    if 65 <= b <= 90 {
      assert UPPER[b - 65] == b as char;
    }
  }

  lemma LowerExact(b: Byte)
    ensures b as char in LOWER <==> 97 <= b <= 122
  {
    if 97 <= b <= 122 {
      assert LOWER[b - 97] == b as char;
    }
  }

  lemma FigureExact(b: Byte)
    ensures b as char in FIGURES <==> 48 <= b <= 57
  {
    if 48 <= b <= 57 {
      assert FIGURES[b - 48] == b as char;
    }
  }

  lemma MarkExact(b: Byte)
    ensures b as char in MARKS <==> b == 45 || b == 46 || b == 95 || b == 126
  {
    assert MARKS == ['-', '.', '_', '~'];
  }

  lemma UnreservedExact(b: Byte)
    ensures Unreserved(b) <==> Plain(b)
  {
    UpperExact(b);
    LowerExact(b);
    FigureExact(b);
    MarkExact(b);
    hide UPPER, LOWER, FIGURES, MARKS;
  }

  /** An upper-case hexadecimal digit, as `%02X` prints it. */
  function Hex(n: int): (d: Byte)
    requires 0 <= n < 16
  {
    if n < 10 then 48 + n else 55 + n
  }

  /** The value of a hexadecimal digit of either case. */
  function HexValue(b: int): Option<int> {
    if 48 <= b <= 57 then Some(b - 48)
    else if 65 <= b <= 70 then Some(b - 55)
    else if 97 <= b <= 102 then Some(b - 87)
    else None
  }

  function EncodeByte(b: Byte): (e: seq<Byte>)
    ensures |e| == if Unreserved(b) then 1 else 3
  {
    if Unreserved(b) then [b] else [37, Hex(b / 16), Hex(b % 16)]
  }

  function Encode(value: seq<Byte>): seq<Byte> {
    if value == [] then [] else Encode(value[..|value| - 1]) + EncodeByte(value[|value| - 1])
  }

  /** Section 2.1 of RFC 3986: "%" and two hexadecimal digits stand for one byte; a cut-off escape decodes to nothing. */
  function Decode(s: seq<Byte>): Option<seq<Byte>> {
    if s == [] then Some([])
    else if s[0] != 37 then
      match Decode(s[1..]) {
        case Some(rest) => Some([s[0]] + rest)
        case None => None
      }
    else if |s| < 3 || HexValue(s[1]).None? || HexValue(s[2]).None? then None
    else
      match Decode(s[3..])
      case Some(rest) => Some([HexByte(s[1], s[2])] + rest)
      case None => None
  }

  function HexByte(hi: int, lo: int): Byte
    requires HexValue(hi).Some? && HexValue(lo).Some?
  {
    HexValue(hi).value * 16 + HexValue(lo).value
  }

  /** How many leading bytes a buffer of `size` bytes takes. */
  function Kept(value: seq<Byte>, size: int): (k: int)
    ensures 0 <= k <= |value|
  {
    if value == [] then 0 else
    var front := value[..|value| - 1];
    var k := Kept(front, size);
    if k == |front| && |Encode(front)| + 4 < size then k + 1 else k
  }

  /** `snprintf("%%%02X")`: three characters and its own terminator. */
  method PrintEscape(out: array<Byte>, i: int, b: Byte)
    requires 0 <= i && i + 3 < out.Length
    modifies out
    ensures out[i] == 37 && out[i + 1] == Hex(b / 16) && out[i + 2] == Hex(b % 16)
    ensures forall j :: 0 <= j < i || i + 3 < j < out.Length ==> out[j] == old(out[j])
  {
    out[i] := 37;
    out[i + 1] := Hex(b / 16);
    out[i + 2] := Hex(b % 16);
    out[i + 3] := 0;
  }

  /** `raop_url_encode`; the terminator of an escape is overwritten by what follows. */
  method UrlEncode(out: array<Byte>, value: seq<Byte>) returns (i: int)
    modifies out
    ensures out.Length == 0 ==> i == 0
    ensures out.Length > 0 ==>
              && i == |Encode(value[..Kept(value, out.Length)])| < out.Length
              && out[..i] == Encode(value[..Kept(value, out.Length)])
              && out[i] == 0
              && out[i + 1..] == old(out[..])[i + 1..]
  {
    hide Encode, Kept, Unreserved, Hex;
    i := 0;
    if out.Length == 0 {
      return;
    }
    ghost var was := out[..];
    var c := 0;
    KeptStart(value, out.Length);
    while c < |value| && i + 4 < out.Length
      invariant 0 <= c <= |value| && 0 <= i < out.Length
      invariant out[..i] == Encode(value[..c])
      invariant forall j :: i < j < out.Length ==> out[j] == was[j]
      invariant Kept(value[..c], out.Length) == c
    {
      EncodeStep(value, c, out.Length);
      ghost var before := out[..i];
      if Unreserved(value[c]) {
        out[i] := value[c];
        i := i + 1;
      } else {
        PrintEscape(out, i, value[c]);
        i := i + 3;
      }
      assert out[..i] == before + EncodeByte(value[c]);
      c := c + 1;
    }
    KeptEnds(value, c, out.Length);
    out[i] := 0;
  }

  lemma KeptStart(value: seq<Byte>, size: int)
    ensures Kept(value[..0], size) == 0 && Encode(value[..0]) == []
  {
  }

  lemma EncodeStep(value: seq<Byte>, c: int, size: int)
    requires 0 <= c < |value|
    ensures Encode(value[..c + 1]) == Encode(value[..c]) + EncodeByte(value[c])
    ensures Kept(value[..c], size) == c && |Encode(value[..c])| + 4 < size ==> Kept(value[..c + 1], size) == c + 1
  {
    hide EncodeByte;
    assert value[..c + 1][..c] == value[..c];
  }

  lemma {:induction false} KeptEnds(value: seq<Byte>, c: int, size: int)
    requires 0 <= c <= |value| && Kept(value[..c], size) == c
    requires c == |value| || |Encode(value[..c])| + 4 >= size
    ensures Kept(value, size) == c
    decreases |value|
  {
    if c == |value| {
      assert value[..c] == value;
    } else {
      var front := value[..|value| - 1];
      assert front[..c] == value[..c];
      hide Encode;
      KeptEnds(front, c, size);
      if c == |front| {
        assert front == value[..c];
      }
    }
  }

  // ---- What the output means ----

  /** The bytes kept are those whose predecessors left room for a whole escape and the terminator. */
  lemma {:induction false} KeptExact(value: seq<Byte>, size: int, k: int)
    requires 0 < k <= |value|
    ensures Kept(value, size) >= k <==> |Encode(value[..k - 1])| + 4 < size
    decreases |value|
  {
    var front := value[..|value| - 1];
    if k == |value| {
      if |front| > 0 && |Encode(front)| + 4 < size {
        EncodeGrows(front, |front| - 1);
        assert front[..|front| - 1] == value[..|front| - 1];
        KeptExact(front, size, |front|);
      }
    } else {
      KeptExact(front, size, k);
      assert front[..k - 1] == value[..k - 1];
    }
  }

  lemma {:induction false} EncodeGrows(value: seq<Byte>, k: int)
    requires 0 <= k <= |value|
    ensures |Encode(value[..k])| <= |Encode(value)| <= 3 * |value|
    decreases |value|
  {
    if k == |value| {
      assert value[..k] == value;
      if value != [] {
        EncodeGrows(value[..|value| - 1], |value| - 1);
      }
    } else {
      var front := value[..|value| - 1];
      EncodeGrows(front, k);
      assert front[..k] == value[..k];
    }
  }

  /** The whole value is encoded exactly when all but its last byte leave four bytes free; 3 * length + 2 is enough. */
  lemma WholeValueKept(value: seq<Byte>, size: int)
    ensures Kept(value, size) == |value| <==> value == [] || |Encode(value[..|value| - 1])| + 4 < size
    ensures size >= 3 * |value| + 2 ==> Kept(value, size) == |value|
  {
    if value != [] {
      KeptExact(value, size, |value|);
      EncodeGrows(value[..|value| - 1], 0);
    }
  }

  lemma HexInverse(n: int)
    requires 0 <= n < 16
    ensures HexValue(Hex(n)) == Some(n)
  {
  }

  lemma DecodeByte(b: Byte, rest: seq<Byte>)
    ensures Decode(EncodeByte(b) + rest)
            == match Decode(rest) case Some(r) => Some([b] + r) case None => None
  {
    var s := EncodeByte(b) + rest;
    if Unreserved(b) {
      assert s[1..] == rest;
    } else {
      HexInverse(b / 16);
      HexInverse(b % 16);
      assert s[3..] == rest;
    }
  }

  lemma {:induction false} DecodeAppends(value: seq<Byte>, rest: seq<Byte>)
    ensures Decode(Encode(value) + rest)
            == match Decode(rest) case Some(r) => Some(value + r) case None => None
    decreases |value|
  {
    hide Decode, EncodeByte;
    if value == [] {
      assert Encode(value) + rest == rest;
      if Decode(rest).Some? {
        assert value + Decode(rest).value == Decode(rest).value;
      }
    } else {
      var front, b := value[..|value| - 1], value[|value| - 1];
      EncodeSplit(value, rest);
      DecodeAppends(front, EncodeByte(b) + rest);
      DecodeByte(b, rest);
      if Decode(rest).Some? {
        assert front + ([b] + Decode(rest).value) == value + Decode(rest).value;
      }
    }
  }

  lemma EncodeSplit(value: seq<Byte>, rest: seq<Byte>)
    requires value != []
    ensures Encode(value) + rest == Encode(value[..|value| - 1]) + (EncodeByte(value[|value| - 1]) + rest)
  {
    hide EncodeByte;
  }

  /** Whatever the buffer, the output is a whole number of escapes and decodes to a prefix of the value. */
  lemma RoundTripUnderTruncation(value: seq<Byte>, size: int)
    ensures Decode(Encode(value[..Kept(value, size)])) == Some(value[..Kept(value, size)])
  {
    var prefix := value[..Kept(value, size)];
    DecodeAppends(prefix, []);
    hide Encode;
    assert Encode(prefix) + [] == Encode(prefix);
    assert prefix + [] == prefix;
  }

  /** Unreserved characters and escapes of upper-case digits, one after the other. */
  predicate WellEscaped(s: seq<Byte>) {
    s == [] ||
    if Plain(s[0]) then WellEscaped(s[1..])
    else
      && s[0] as char == '%' && |s| >= 3
      && s[1] as char in "0123456789ABCDEF" && s[2] as char in "0123456789ABCDEF" && WellEscaped(s[3..])
  }

  lemma HexDigit(n: int)
    requires 0 <= n < 16
    ensures Hex(n) as char in "0123456789ABCDEF"
  {
    assert "0123456789ABCDEF"[n] == Hex(n) as char;
  }

  lemma PercentReserved()
    ensures !Plain(37)
  {
    UnreservedExact(37);
  }

  lemma {:induction false} WellEscapedAppends(value: seq<Byte>, rest: seq<Byte>)
    requires WellEscaped(rest)
    ensures WellEscaped(Encode(value) + rest)
    decreases |value|
  {
    hide Unreserved, Hex, Plain;
    if value == [] {
      assert Encode(value) + rest == rest;
    } else {
      var b := value[|value| - 1];
      EncodeSplit(value, rest);
      UnreservedExact(b);
      EscapeLeads(b, rest);
      hide EncodeByte, WellEscaped;
      WellEscapedAppends(value[..|value| - 1], EncodeByte(b) + rest);
    }
  }

  lemma EscapeLeads(b: Byte, rest: seq<Byte>)
    requires WellEscaped(rest)
    ensures WellEscaped(EncodeByte(b) + rest)
  {
    hide Hex, Unreserved, Plain;
    UnreservedExact(b);
    PercentReserved();
    HexDigit(b / 16);
    HexDigit(b % 16);
    var s := EncodeByte(b) + rest;
    if Plain(b) {
      assert s[1..] == rest;
    } else {
      assert s[3..] == rest;
    }
  }

  /** Whatever the buffer, only unreserved characters stand for themselves in the output: it can stand in a request target. */
  lemma OutputIsSafe(value: seq<Byte>, size: int)
    ensures WellEscaped(Encode(value[..Kept(value, size)]))
  {
    var prefix := value[..Kept(value, size)];
    WellEscapedAppends(prefix, []);
    assert Encode(prefix) + [] == Encode(prefix);
  }

  /** A value of unreserved characters is left as it is. */
  lemma {:induction false} UnreservedKept(value: seq<Byte>)
    requires forall b: Byte :: b in value ==> Plain(b)
    ensures Encode(value) == value
    decreases |value|
  {
    hide Plain, Unreserved;
    if value != [] {
      var front, b := value[..|value| - 1], value[|value| - 1];
      assert b in value;
      UnreservedExact(b);
      assert forall x: Byte :: x in front ==> x in value;
      UnreservedKept(front);
      assert value == front + [b];
    }
  }
}
