/**
  * What a byte stream means to the terminal: text arrives as its characters, and
  * nothing malformed can hide a plain character or a control.
  */
module TermStream {
  import opened Values
  import opened Utf8
  import opened TermModel
  import opened TermRun
  import opened TermBytes

  /** The ASCII part of a sequence of bytes or runes. */
  function Ascii(us: seq<int>): seq<int> {
    if us == [] then [] else (if us[0] < 0x80 then [us[0]] else []) + Ascii(us[1..])
  }

  lemma {:induction false} AsciiJoins(a: seq<int>, b: seq<int>)
    ensures Ascii(a + b) == Ascii(a) + Ascii(b)
  {
    if a == [] {
      assert a + b == b;
    } else {
      assert (a + b)[1..] == a[1..] + b;
      AsciiJoins(a[1..], b);
    }
  }

  lemma {:induction false} NoAscii(s: seq<int>)
    requires forall i :: 0 <= i < |s| ==> s[i] >= 0x80
    ensures Ascii(s) == []
  {
    if s == [] {
    } else {
      NoAscii(s[1..]);
    }
  }

  /** The bytes of one decoding step have the same ASCII part as the rune it makes. */
  lemma StepAscii(s: seq<Byte>)
    requires Decode(s).size > 0
    ensures Decode(s).size <= |s| && Ascii(s[..Decode(s).size]) == Ascii([Decode(s).u])
  {
    hide Decode;
    Resynchronises(s);
    var d := Decode(s);
    if s[0] >= 0x80 { NoAscii(s[..d.size]); } else { assert s[..1] == [s[0]]; }
  }

  lemma RestAscii(s: seq<Byte>)
    requires Incomplete(s)
    ensures Ascii(s) == []
  {
    NoAscii(s);
  }

  /** Every byte below 0x80 reaches the terminal as itself, in order, and no other rune is below 0x80. */
  lemma {:induction false} FeedAscii(e: Env, t: Term, s: seq<Byte>)
    ensures Ascii(Feed(e, t, s, false).runes) == Ascii(s)
    decreases |s|
  {
    hide Puts, Decode, Ascii;
    if s == [] {
    } else {
      DecodeSize(s);
      var d := if t.mode.utf8 then Decode(s) else Decoded(s[0], 1);
      if d.size == 0 {
        RestAscii(s);
        AsciiNone();
      } else {
        if t.mode.utf8 { StepAscii(s); } else { assert s[..1] == [s[0]]; }
        var f := Feed(e, Puts(e, t, [d.u]), s[d.size..], false);
        FeedAscii(e, Puts(e, t, [d.u]), s[d.size..]);
        AsciiJoins([d.u], f.runes);
        AsciiJoins(s[..d.size], s[d.size..]);
        assert s == s[..d.size] + s[d.size..];
      }
    }
  }

  lemma AsciiNone()
    ensures Ascii([]) == []
  {}

  // ---- text ----

  function EncodeAll(us: seq<int>): seq<Byte> {
    if us == [] then [] else Encode(us[0]) + EncodeAll(us[1..])
  }

  /** UTF-8 mode is on before each of the runes. */
  predicate StaysUtf8(e: Env, t: Term, us: seq<int>)
    decreases |us|
  {
    us == [] || (t.mode.utf8 && StaysUtf8(e, Putc(e, t, us[0]), us[1..]))
  }

  /** Text written in UTF-8 arrives as its characters, and nothing is held back. */
  lemma {:induction false} TextFed(e: Env, t: Term, us: seq<int>)
    requires StaysUtf8(e, t, us) && forall i :: 0 <= i < |us| ==> IsScalar(us[i])
    ensures Feed(e, t, EncodeAll(us), false) == Fed(Puts(e, t, us), [], us)
    decreases |us|
  {
    hide Putc, Encode, Decode;
    if us == [] {
    } else {
      var rest := EncodeAll(us[1..]);
      var s := Encode(us[0]) + rest;
      RoundTrip(us[0], rest);
      assert s[|Encode(us[0])|..] == rest;
      var u := Putc(e, t, us[0]);
      PutsOne(e, t, us[0]);
      TextFed(e, u, us[1..]);
      assert us == [us[0]] + us[1..];
    }
  }

  /** An 8-bit terminal takes every byte for a character. */
  predicate StaysPlain(e: Env, t: Term, us: seq<int>)
    decreases |us|
  {
    us == [] || (!t.mode.utf8 && StaysPlain(e, Putc(e, t, us[0]), us[1..]))
  }

  lemma {:induction false} BytesFed(e: Env, t: Term, s: seq<Byte>)
    requires StaysPlain(e, t, s)
    ensures Feed(e, t, s, false) == Fed(Puts(e, t, s), [], s)
    decreases |s|
  {
    hide Putc, Decode;
    if s == [] {
    } else {
      PutsOne(e, t, s[0]);
      BytesFed(e, Putc(e, t, s[0]), s[1..]);
      assert s == [s[0]] + s[1..];
    }
  }

  /** What an echo shows for each of the C0 controls: a caret and the letter it is typed with. */
  lemma EchoShows(u: int)
    requires 0 <= u <= 0x1f || u == 0x7f
    ensures Echoed(u, true) == if u in {0x09, 0x0a, 0x0d} then [u] else [0x5e, if u == 0x7f then 0x3f else u + 0x40]
    ensures Echoed(u, false) == [u]
  {}
}
