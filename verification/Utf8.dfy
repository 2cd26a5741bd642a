/**
  * The terminal's streaming UTF-8 codec. Bytes and runes are integers; the
  * byte masks of the C tables are written as the ranges they select.
  */
module Utf8 {
  import opened Values

  const INVALID := 0xFFFD

  /** A decoded rune and the number of bytes consumed; size 0 asks for more input. */
  datatype Decoded = Decoded(u: int, size: nat)

  predicate IsScalar(u: int) {
    0 <= u <= 0x10FFFF && !(0xD800 <= u <= 0xDFFF)
  }

  /** Class of a byte: 0 continuation, 1 to 4 the length it announces, 5 neither. */
  function Kind(b: Byte): (k: nat)
    ensures k <= 5
  {
    if b < 0x80 then 1
    else if b < 0xC0 then 0
    else if b < 0xE0 then 2
    else if b < 0xF0 then 3
    else if b < 0xF8 then 4
    else 5
  }

  /** The payload bits of a byte. */
  function Payload(b: Byte): nat {
    match Kind(b)
    case 0 => b - 0x80
    case 1 => b
    case 2 => b - 0xC0
    case 3 => b - 0xE0
    case 4 => b - 0xF0
    case _ => 0
  }

  function MinRune(len: nat): nat {
    match len
    case 2 => 0x80
    case 3 => 0x800
    case 4 => 0x10000
    case _ => 0
  }

  function MaxRune(len: nat): nat {
    match len
    case 1 => 0x7F
    case 2 => 0x7FF
    case 3 => 0xFFFF
    case _ => 0x10FFFF
  }

  /** utf8validate: the rune, or INVALID when it is out of its length's range or a surrogate. */
  function Validated(u: int, len: nat): int {
    if MinRune(len) <= u <= MaxRune(len) && !(0xD800 <= u <= 0xDFFF) then u else INVALID
  }

  /** The shortest length whose range reaches u. */
  function EncodedLength(u: int): nat {
    if u <= 0x7F then 1 else if u <= 0x7FF then 2 else if u <= 0xFFFF then 3 else 4
  }

  // ---- decoding ----

  /** The rest of a sequence of length len after j bytes that gave acc. */
  function Continue(s: seq<Byte>, j: nat, len: nat, acc: nat): Decoded
    requires j <= |s| && j <= len
    decreases len - j
  {
    if j == len then Decoded(Validated(acc, len), len)
    else if j == |s| then Decoded(INVALID, 0)
    else if Kind(s[j]) != 0 then Decoded(INVALID, j)
    else Continue(s, j + 1, len, acc * 64 + Payload(s[j]))
  }

  function Decode(s: seq<Byte>): Decoded {
    if s == [] then Decoded(INVALID, 0)
    else if 1 <= Kind(s[0]) <= 4 then Continue(s, 1, Kind(s[0]), Payload(s[0]))
    else Decoded(INVALID, 1)
  }

  method Utf8Decode(s: seq<Byte>) returns (u: int, size: nat)
    ensures Decoded(u, size) == Decode(s)
    ensures size > 0 ==> size <= |s| && forall i :: 1 <= i < size ==> IsContinuation(s[i])
    ensures size > 0 ==> if s[0] < 0x80 then u == s[0] && size == 1 else u >= 0x80
  {
    if Decode(s).size > 0 { Resynchronises(s); }
    u := INVALID;
    if |s| == 0 { return u, 0; }
    var len := Kind(s[0]);
    var acc: nat := Payload(s[0]);
    if !(1 <= len <= 4) { return u, 1; }
    var j := 1;
    while j < |s| && j < len
      invariant 1 <= j <= len && j <= |s|
      invariant Continue(s, j, len, acc) == Decode(s)
    {
      acc := acc * 64 + Payload(s[j]);
      if Kind(s[j]) != 0 { return u, j; }
      j := j + 1;
    }
    if j < len { return u, 0; }
    u := Validated(acc, len);
    size := len;
  }

  // ---- encoding ----

  function LeadByte(u: nat, len: nat): Byte
    requires 1 <= len <= 4
  {
    match len
    case 1 => u % 128
    case 2 => 0xC0 + u % 32
    case 3 => 0xE0 + u % 16
    case _ => 0xF0 + u % 8
  }

  function Tail(u: nat): Byte {
    0x80 + u % 64
  }

  /** A lead byte for the high bits of u, then n continuation bytes. */
  function Bytes(u: nat, len: nat, n: nat): (s: seq<Byte>)
    requires 1 <= len <= 4
    ensures |s| == n + 1
    decreases n
  {
    if n == 0 then [LeadByte(u, len)] else Bytes(u / 64, len, n - 1) + [Tail(u)]
  }

  function Encode(u: int): (s: seq<Byte>)
    ensures 1 <= |s| <= 4
  {
    var v := if IsScalar(u) then u else INVALID;
    Bytes(v, EncodedLength(v), EncodedLength(v) - 1)
  }

  method Utf8Encode(u: int) returns (c: seq<Byte>)
    ensures c == Encode(u)
  {
    var v: nat := if IsScalar(u) then u else INVALID;
    var len: nat := EncodedLength(v);
    ghost var whole := v;
    c := [];
    var i := len - 1;
    while i != 0
      invariant 0 <= i < len
      invariant Bytes(whole, len, len - 1) == Bytes(v, len, i) + c
    {
      c := [Tail(v)] + c;
      v := v / 64;
      i := i - 1;
    }
    c := [LeadByte(v, len)] + c;
  }

  // ---- what the decoder promises ----

  lemma {:induction false} ContinueExtend(s: seq<Byte>, t: seq<Byte>, j: nat, len: nat, acc: nat)
    requires j <= |s| && j <= len
    requires Continue(s, j, len, acc).size > 0 || j == len
    ensures Continue(s + t, j, len, acc) == Continue(s, j, len, acc)
    decreases len - j
  {
    if j < len && j < |s| && Kind(s[j]) == 0 {
      ContinueExtend(s, t, j + 1, len, acc * 64 + Payload(s[j]));
    }
  }

  /** Once the decoder has an answer, later bytes cannot change it. */
  lemma DecodeExtend(s: seq<Byte>, t: seq<Byte>)
    requires Decode(s).size > 0
    ensures Decode(s + t) == Decode(s)
  {
    if s != [] && 1 <= Kind(s[0]) <= 4 {
      ContinueExtend(s, t, 1, Kind(s[0]), Payload(s[0]));
    }
  }

  lemma {:induction false} ContinueSize(s: seq<Byte>, j: nat, len: nat, acc: nat)
    requires 1 <= j <= |s| && j <= len <= 4
    ensures Continue(s, j, len, acc).size <= |s|
    ensures Continue(s, j, len, acc).size <= 4
    ensures IsScalar(Continue(s, j, len, acc).u)
    ensures Continue(s, j, len, acc).size == 0 <==> (|s| < len && forall i :: j <= i < |s| ==> Kind(s[i]) == 0)
    decreases len - j
  {
    if j < len && j < |s| && Kind(s[j]) == 0 {
      ContinueSize(s, j + 1, len, acc * 64 + Payload(s[j]));
    }
  }

  /** A short prefix of a well-started sequence: the only input the decoder waits on. */
  predicate Incomplete(s: seq<Byte>) {
    s == [] || (|s| < Kind(s[0]) <= 4 && forall i :: 1 <= i < |s| ==> Kind(s[i]) == 0)
  }

  /** The decoder consumes 1 to 4 available bytes and yields a scalar, or waits on under four bytes. */
  lemma DecodeSize(s: seq<Byte>)
    ensures Decode(s).size <= |s| && Decode(s).size <= 4
    ensures IsScalar(Decode(s).u)
    ensures Decode(s).size == 0 <==> Incomplete(s)
    ensures Decode(s).size == 0 ==> |s| < 4
  {
    if s != [] && 1 <= Kind(s[0]) <= 4 {
      ContinueSize(s, 1, Kind(s[0]), Payload(s[0]));
    }
  }

  // ---- round trips ----

  /** A complete sequence: a lead byte and as many continuation bytes as it announces. */
  predicate Complete(s: seq<Byte>) {
    1 <= |s| <= 4 && Kind(s[0]) == |s| && forall i :: 1 <= i < |s| ==> Kind(s[i]) == 0
  }

  /** The payload bits of a sequence, most significant first. */
  function Joined(s: seq<Byte>): nat {
    if s == [] then 0 else Joined(s[..|s| - 1]) * 64 + Payload(s[|s| - 1])
  }

  lemma {:induction false} ContinueJoined(s: seq<Byte>, j: nat)
    requires Complete(s) && 1 <= j <= |s|
    ensures Continue(s, j, |s|, Joined(s[..j])) == Decoded(Validated(Joined(s), |s|), |s|)
    decreases |s| - j
  {
    if j == |s| {
      assert s[..j] == s;
    } else {
      assert s[..j + 1][..j] == s[..j];
      ContinueJoined(s, j + 1);
    }
  }

  lemma DecodeComplete(s: seq<Byte>)
    requires Complete(s)
    ensures Decode(s) == Decoded(Validated(Joined(s), |s|), |s|)
  {
    hide Payload, Validated, Kind;
    ContinueJoined(s, 1);
    assert s[..1] == [s[0]] && [s[0]][..0] == [];
    assert Joined(s[..1]) == Payload(s[0]);
  }

  lemma TailBits(u: nat)
    ensures Kind(Tail(u)) == 0 && Payload(Tail(u)) == u % 64
  {}

  lemma LeadBits(u: nat, len: nat)
    requires 1 <= len <= 4 && u < (match len case 1 => 128 case 2 => 32 case 3 => 16 case _ => 8)
    ensures Kind(LeadByte(u, len)) == len && Payload(LeadByte(u, len)) == u
  {}

  /** Bytes is a complete sequence carrying u. */
  lemma {:induction false} BytesJoined(u: nat, len: nat, n: nat)
    requires 1 <= len <= 4 && Fits(u, len, n)
    ensures var s := Bytes(u, len, n);
      Kind(s[0]) == len && (forall i :: 1 <= i <= n ==> Kind(s[i]) == 0) && Joined(s) == u
    decreases n
  {
    var s := Bytes(u, len, n);
    if n == 0 {
      LeadBits(u, len);
      assert s[..0] == [];
    } else {
      BytesJoined(u / 64, len, n - 1);
      TailBits(u);
      assert s[..n] == Bytes(u / 64, len, n - 1);
    }
  }

  /** u has no bits beyond what a lead byte of class len and n continuation bytes carry. */
  predicate Fits(u: nat, len: nat, n: nat) {
    if n == 0 then u < (match len case 1 => 128 case 2 => 32 case 3 => 16 case _ => 8)
    else Fits(u / 64, len, n - 1)
  }

  lemma ScalarFits(u: int)
    requires IsScalar(u)
    ensures Fits(u, EncodedLength(u), EncodedLength(u) - 1)
  {
    var len := EncodedLength(u);
    if len >= 2 { assert Fits(u, len, len - 1) == Fits(u / 64, len, len - 2); }
    if len >= 3 { assert Fits(u / 64, len, len - 2) == Fits(u / 64 / 64, len, len - 3); }
    if len >= 4 { assert Fits(u / 64 / 64, len, 1) == Fits(u / 64 / 64 / 64, len, 0); }
  }

  /** Every Unicode scalar survives encoding and decoding, alone or with bytes after it. */
  lemma RoundTrip(u: int, rest: seq<Byte>)
    requires IsScalar(u)
    ensures Decode(Encode(u) + rest) == Decoded(u, |Encode(u)|)
  {
    ScalarFits(u);
    BytesJoined(u, EncodedLength(u), EncodedLength(u) - 1);
    DecodeComplete(Encode(u));
    DecodeExtend(Encode(u), rest);
  }

  /** Whatever answer the decoder gives depends only on the bytes it consumes. */
  lemma DecodePrefix(s: seq<Byte>)
    requires Decode(s).u != INVALID
    ensures var n := Decode(s).size; 0 < n <= |s| && Decode(s[..n]) == Decode(s)
    ensures Kind(s[0]) == Decode(s).size && forall i :: 1 <= i < Decode(s).size ==> Kind(s[i]) == 0
  {
    DecodeSize(s);
    var n := Kind(s[0]);
    ContinueValid(s, 1, n, Payload(s[0]));
    DecodeSize(s[..n]);
    DecodeExtend(s[..n], s[n..]);
    assert s == s[..n] + s[n..];
  }

  lemma {:induction false} ContinueValid(s: seq<Byte>, j: nat, len: nat, acc: nat)
    requires 1 <= j <= |s| && j <= len && Continue(s, j, len, acc).u != INVALID
    ensures Continue(s, j, len, acc).size == len <= |s| && forall i :: j <= i < len ==> Kind(s[i]) == 0
    decreases len - j
  {
    if j < len { ContinueValid(s, j + 1, len, acc * 64 + Payload(s[j])); }
  }

  /** A complete sequence is determined by its length and the bits it carries. */
  lemma {:induction false} JoinedBytes(s: seq<Byte>, len: nat)
    requires 1 <= len <= 4 && s != [] && Kind(s[0]) == len && forall i :: 1 <= i < |s| ==> Kind(s[i]) == 0
    ensures s == Bytes(Joined(s), len, |s| - 1)
    decreases |s|
  {
    var t := s[..|s| - 1];
    assert s == t + [s[|s| - 1]];
    if |s| == 1 {
      assert Joined(t) == 0;
      LeadOf(s[0]);
    } else {
      JoinedBytes(t, len);
      TailOf(Joined(t), s[|s| - 1]);
    }
  }

  lemma LeadOf(b: Byte)
    requires 1 <= Kind(b) <= 4
    ensures LeadByte(Payload(b), Kind(b)) == b
  {}

  lemma TailOf(high: nat, b: Byte)
    requires Kind(b) == 0
    ensures Tail(high * 64 + Payload(b)) == b && (high * 64 + Payload(b)) / 64 == high
  {}

  lemma ValidLength(u: int, len: nat)
    requires 1 <= len <= 4 && Validated(u, len) != INVALID
    ensures Validated(u, len) == u && IsScalar(u) && EncodedLength(u) == len
  {}

  /** Only the shortest form of a rune is ever decoded to it: the consumed bytes are its encoding. */
  lemma OnlyShortest(s: seq<Byte>)
    requires Decode(s).u != INVALID
    ensures Decode(s).size <= |s| && s[..Decode(s).size] == Encode(Decode(s).u)
  {
    hide Continue, Payload, Validated, Bytes;
    DecodePrefix(s);
    DecodeSize(s);
    var n := Decode(s).size;
    var t := s[..n];
    DecodeComplete(t);
    ValidLength(Joined(t), n);
    JoinedBytes(t, n);
  }

  // ---- the decoder against the table of RFC 3629 ----

  predicate IsContinuation(b: int) { 0x80 <= b <= 0xBF }

  /** The length a first byte announces, 0 if it starts nothing. */
  function Announced(b: Byte): nat {
    if b <= 0x7F then 1
    else if 0xC0 <= b <= 0xDF then 2
    else if 0xE0 <= b <= 0xEF then 3
    else if 0xF0 <= b <= 0xF7 then 4
    else 0
  }

  /** Position j is where the announced sequence stops short: the first byte in it that is no continuation. */
  predicate BreaksAt(s: seq<Byte>, j: int) {
    s != [] && 1 <= j < |s| && j < Announced(s[0]) && !IsContinuation(s[j])
    && forall i :: 1 <= i < j ==> IsContinuation(s[i])
  }

  /** The well-formed sequences, row by row of the table in section 4 of RFC 3629. */
  predicate WellFormed(s: seq<Byte>) {
    if |s| == 1 then s[0] <= 0x7F
    else if |s| == 2 then 0xC2 <= s[0] <= 0xDF && IsContinuation(s[1])
    else if |s| == 3 then
      IsContinuation(s[2])
      && ((s[0] == 0xE0 && 0xA0 <= s[1] <= 0xBF) || (0xE1 <= s[0] <= 0xEC && IsContinuation(s[1]))
        || (s[0] == 0xED && 0x80 <= s[1] <= 0x9F) || (0xEE <= s[0] <= 0xEF && IsContinuation(s[1])))
    else if |s| == 4 then
      IsContinuation(s[2]) && IsContinuation(s[3])
      && ((s[0] == 0xF0 && 0x90 <= s[1] <= 0xBF) || (0xF1 <= s[0] <= 0xF3 && IsContinuation(s[1]))
        || (s[0] == 0xF4 && 0x80 <= s[1] <= 0x8F))
    else false
  }

  /** The number whose bits a sequence of up to four bytes spells. */
  function Spelled(s: seq<Byte>): int
    requires 1 <= |s| <= 4
  {
    if |s| == 1 then s[0]
    else if |s| == 2 then (s[0] as int - 0xC0) * 0x40 + (s[1] as int - 0x80)
    else if |s| == 3 then (s[0] as int - 0xE0) * 0x1000 + (s[1] as int - 0x80) * 0x40 + (s[2] as int - 0x80)
    else
      (s[0] as int - 0xF0) * 0x40000 + (s[1] as int - 0x80) * 0x1000 + (s[2] as int - 0x80) * 0x40
      + (s[3] as int - 0x80)
  }

  lemma KindRanges(b: Byte)
    ensures Kind(b) == 0 <==> IsContinuation(b)
    ensures if Announced(b) == 0 then Kind(b) == 0 || Kind(b) == 5 else Kind(b) == Announced(b)
  {}

  lemma JoinedSpells(s: seq<Byte>)
    requires Complete(s)
    ensures Joined(s) == Spelled(s)
  {
    hide Joined;
    JoinedTo(s, 1);
    if |s| >= 2 { JoinedTo(s, 2); }
    if |s| >= 3 { JoinedTo(s, 3); }
    if |s| >= 4 { JoinedTo(s, 4); }
    assert s[..|s|] == s;
  }

  lemma JoinedTo(s: seq<Byte>, n: nat)
    requires 1 <= n <= |s|
    ensures Joined(s[..n]) == (if n == 1 then 0 else Joined(s[..n - 1]) * 64) + Payload(s[n - 1])
  {
    assert s[..n][..n - 1] == s[..n - 1];
  }

  lemma ValidForms(s: seq<Byte>)
    requires Complete(s)
    ensures Validated(Spelled(s), |s|) == if WellFormed(s) then Spelled(s) else INVALID
  {}

  /** A complete sequence is taken whole; it is the rune it spells if the table has it, and INVALID if not. */
  lemma DecodeTable(s: seq<Byte>, n: nat)
    requires 1 <= n <= |s| && Announced(s[0]) == n && forall i :: 1 <= i < n ==> IsContinuation(s[i])
    ensures Decode(s) == Decoded(if WellFormed(s[..n]) then Spelled(s[..n]) else INVALID, n)
  {
    var t := s[..n];
    assert Complete(t);
    hide Decode, Joined, Validated, WellFormed, Spelled, Kind, Complete;
    DecodeComplete(t);
    JoinedSpells(t);
    ValidForms(t);
    DecodeExtend(t, s[n..]);
    assert s == t + s[n..];
  }

  lemma {:induction false} ContinueBreaks(s: seq<Byte>, j: nat, len: nat, acc: nat, k: nat)
    requires 1 <= j <= k < |s| && k < len <= 4 && Kind(s[k]) != 0 && forall i :: j <= i < k ==> Kind(s[i]) == 0
    ensures Continue(s, j, len, acc) == Decoded(INVALID, k)
    decreases k - j
  {
    if j == k {
    } else {
      ContinueBreaks(s, j + 1, len, acc * 64 + Payload(s[j]), k);
    }
  }

  /** A sequence that stops short is INVALID and takes the bytes before the one that breaks it. */
  lemma DecodeBreaks(s: seq<Byte>, j: nat)
    requires BreaksAt(s, j)
    ensures Decode(s) == Decoded(INVALID, j)
  {
    hide Continue, Payload;
    ContinueBreaks(s, 1, Kind(s[0]), Payload(s[0]), j);
  }

  /** These are all the cases. */
  lemma DecodeCases(s: seq<Byte>) returns (j: nat)
    requires s != []
    ensures if Announced(s[0]) == 0 then Decode(s) == Decoded(INVALID, 1)
      else if j == 0 then
        (forall i :: 1 <= i < Announced(s[0]) && i < |s| ==> IsContinuation(s[i]))
        && (|s| < Announced(s[0]) ==> Decode(s) == Decoded(INVALID, 0))
      else BreaksAt(s, j)
  {
    var n := Announced(s[0]);
    KindRanges(s[0]);
    j := 1;
    while j < |s| && j < n && IsContinuation(s[j])
      invariant 1 <= j && (j <= n || n == 0) && j <= |s| && forall i :: 1 <= i < j ==> IsContinuation(s[i])
    {
      j := j + 1;
    }
    if j == |s| || j == n {
      j := 0;
      DecodeSize(s);
      DecodeWaits(s);
    }
  }

  lemma DecodeWaits(s: seq<Byte>)
    ensures Decode(s).size == 0 ==> Decode(s).u == INVALID
  {
    if s != [] && 1 <= Kind(s[0]) <= 4 { ContinueWaits(s, 1, Kind(s[0]), Payload(s[0])); }
  }

  lemma {:induction false} ContinueWaits(s: seq<Byte>, j: nat, len: nat, acc: nat)
    requires 1 <= j <= |s| && j <= len
    ensures Continue(s, j, len, acc).size == 0 ==> Continue(s, j, len, acc).u == INVALID
    decreases len - j
  {
    if j == len || j == |s| {
    } else {
      ContinueWaits(s, j + 1, len, acc * 64 + Payload(s[j]));
    }
  }

  /** After its first byte the decoder takes continuation bytes only, and makes no rune below 0x80 of them. */
  lemma Resynchronises(s: seq<Byte>)
    requires Decode(s).size > 0
    ensures Decode(s).size <= |s| && forall i :: 1 <= i < Decode(s).size ==> IsContinuation(s[i])
    ensures s[0] < 0x80 ==> Decode(s) == Decoded(s[0], 1)
    ensures s[0] >= 0x80 ==> Decode(s).u >= 0x80
  {
    hide Decode, WellFormed, Spelled;
    DecodeSize(s);
    var j := DecodeCases(s);
    if Announced(s[0]) != 0 {
      if j != 0 {
        DecodeBreaks(s, j);
      } else {
        var n := Announced(s[0]);
        DecodeTable(s, n);
        SpelledLarge(s[..n]);
        assert s[..n][0] == s[0];
      }
    }
  }

  lemma SpelledLarge(s: seq<Byte>)
    ensures WellFormed(s) && |s| > 1 ==> Spelled(s) >= 0x80
    ensures WellFormed(s) && |s| == 1 ==> Spelled(s) == s[0]
    ensures |s| == 1 && s[0] < 0x80 ==> WellFormed(s)
  {}

  lemma Divisions(v: nat)
    ensures v / 0x40 / 0x40 == v / 0x1000 && v / 0x40 / 0x40 / 0x40 == v / 0x40000
  {}

  /** The lead byte and the tails, one by one. */
  lemma BytesOf(v: nat, n: nat)
    requires 1 <= n <= 4
    ensures Bytes(v, n, n - 1) ==
      if n == 1 then [LeadByte(v, 1)]
      else if n == 2 then [LeadByte(v / 0x40, 2), Tail(v)]
      else if n == 3 then [LeadByte(v / 0x40 / 0x40, 3), Tail(v / 0x40), Tail(v)]
      else [LeadByte(v / 0x40 / 0x40 / 0x40, 4), Tail(v / 0x40 / 0x40), Tail(v / 0x40), Tail(v)]
  {
    hide LeadByte, Tail;
    if n >= 2 { assert Bytes(v, n, n - 1) == Bytes(v / 0x40, n, n - 2) + [Tail(v)]; }
    if n >= 3 { assert Bytes(v / 0x40, n, n - 2) == Bytes(v / 0x40 / 0x40, n, n - 3) + [Tail(v / 0x40)]; }
    if n >= 4 {
      assert Bytes(v / 0x40 / 0x40, n, n - 3) == Bytes(v / 0x40 / 0x40 / 0x40, n, n - 4) + [Tail(v / 0x40 / 0x40)];
    }
  }

  /** The bytes of each rune, as section 3 of RFC 3629 lays them out. */
  lemma EncodeTable(u: int)
    ensures Encode(u) ==
      if u < 0 || u > 0x10FFFF || 0xD800 <= u <= 0xDFFF then [0xEF, 0xBF, 0xBD]
      else if u <= 0x7F then [u]
      else if u <= 0x7FF then [0xC0 + u / 0x40, 0x80 + u % 0x40]
      else if u <= 0xFFFF then [0xE0 + u / 0x1000, 0x80 + u / 0x40 % 0x40, 0x80 + u % 0x40]
      else [0xF0 + u / 0x40000, 0x80 + u / 0x1000 % 0x40, 0x80 + u / 0x40 % 0x40, 0x80 + u % 0x40]
  {
    hide Bytes;
    var v := if IsScalar(u) then u else INVALID;
    Divisions(v);
    BytesOf(v, EncodedLength(v));
  }
}
