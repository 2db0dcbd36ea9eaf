/** The escaping serialiser of the host's C helper (klippy/pyhelper.c):
    `dump_string` writes a binary string as printable ASCII, each byte
    outside the printable range (and the backslash) as `\x` and two hex
    digits, into an output buffer of a given size that is always
    NUL-terminated. The output buffer is the returned string, NUL
    included. */
module PyHelper {
  import opened Wrappers
  import opened MachineInts

  /** `GETHEX` as written: ten to fifteen come out as 'e' to 'j'. */
  function GetHexAsWritten(x: int): (c: char)
    requires 0 <= x < 16
    ensures x < 10 ==> c == ('0' as int + x) as char
    ensures x >= 10 ==> c == ('e' as int + x - 10) as char
  {
    if x < 10 then ('0' as int + x) as char else ('e' as int + x - 10) as char
  }

  /** The value of a lower-case hex digit. */
  function HexValue(c: char): (r: Option<int>)
    ensures r.Some? ==> 0 <= r.value < 16
  {
    if '0' <= c <= '9' then Some(c as int - '0' as int)
    else if 'a' <= c <= 'f' then Some(c as int - 'a' as int + 10)
    else None
  }

  /** The hex digit of a nibble, as `GETHEX` evidently means it. */
  function GetHex(x: int): (c: char)
    requires 0 <= x < 16
    ensures HexValue(c) == Some(x)
  {
    if x < 10 then ('0' as int + x) as char else ('a' as int + x - 10) as char
  }

  /** The as-written digit is a hex digit only below ten... */
  lemma GetHexAsWrittenMisreads(x: int)
    requires 10 <= x < 16
    ensures GetHexAsWritten(x) != GetHex(x)
    ensures x <= 11 ==> HexValue(GetHexAsWritten(x)) == Some(x + 4)
    ensures x >= 12 ==> HexValue(GetHexAsWritten(x)) == None
  {
  }

  /** Bytes copied as they are: 32 to 126 except the backslash. */
  predicate Plain(c: u8) {
    31 < c < 127 && c != '\\' as int
  }

  /** One byte as written to the output with the corrected digits. */
  function Escape(c: u8): (r: string)
    ensures Plain(c) ==> r == [c as char]
    ensures !Plain(c) ==>
      |r| == 4 && r[0] == '\\' && r[1] == 'x' && HexValue(r[2]) == Some(c / 16) && HexValue(r[3]) == Some(c % 16)
    ensures '\0' !in r
  {
    if Plain(c) then [c as char] else ['\\', 'x', GetHex(c / 16), GetHex(c % 16)]
  }

  /** One byte as written to the output by the source: an escaped byte
      reads back correctly only through nibbles below ten, the others
      coming out as letters from 'e' to 'j'. */
  function EscapeAsWritten(c: u8): (r: string)
    ensures Plain(c) ==> r == [c as char]
    ensures !Plain(c) ==> |r| == 4 && r[0] == '\\' && r[1] == 'x'
    ensures !Plain(c) ==> forall k :: 2 <= k < 4 ==>
      var n := if k == 2 then c / 16 else c % 16;
      (n < 10 ==> HexValue(r[k]) == Some(n as int)) && (n >= 10 ==> 'e' <= r[k] <= 'j')
  {
    if Plain(c) then [c as char] else ['\\', 'x', GetHexAsWritten(c / 16), GetHexAsWritten(c % 16)]
  }

  /** The source's escape and the corrected one have the same length, and
      differ exactly for the escaped bytes with a nibble of ten or more:
      the truncation of `dump_string` is the same for both, only those
      digits change. */
  lemma EscapeAsWrittenAgrees(c: u8)
    ensures |EscapeAsWritten(c)| == |Escape(c)|
    ensures EscapeAsWritten(c) == Escape(c) <==> Plain(c) || (c / 16 < 10 && c % 16 < 10)
  {
    if !Plain(c) {
      if c / 16 >= 10 {
        GetHexAsWrittenMisreads(c / 16);
        assert EscapeAsWritten(c)[2] != Escape(c)[2];
      } else if c % 16 >= 10 {
        GetHexAsWrittenMisreads(c % 16);
        assert EscapeAsWritten(c)[3] != Escape(c)[3];
      }
    }
  }

  /** The escaping of a whole byte string, byte by byte. */
  function EscapeAll(s: seq<u8>): (r: string)
    ensures |s| <= |r| <= 4 * |s|
    ensures '\0' !in r
    decreases |s|
  {
    if |s| == 0 then "" else EscapeAll(s[..|s| - 1]) + Escape(s[|s| - 1])
  }

  /** Reading an escaped text back: a backslash must be followed by `x`
      and two hex digits; every other character stands for itself. */
  function Unescape(t: string): (r: Option<seq<u8>>)
    decreases |t|
  {
    if |t| == 0 then Some([])
    else if t[0] == '\\' then
      if |t| < 4 || t[1] != 'x' || HexValue(t[2]).None? || HexValue(t[3]).None? then None
      else match Unescape(t[4..])
        case None => None
        case Some(rest) => Some([(HexValue(t[2]).value * 16 + HexValue(t[3]).value) as u8] + rest)
    else if t[0] as int < 256 then
      match Unescape(t[1..])
      case None => None
      case Some(rest) => Some([t[0] as int as u8] + rest)
    else None
  }

  /** The escaping with the corrected digits is read back as the input. */
  lemma {:induction false} UnescapeEscapeAll(s: seq<u8>)
    ensures Unescape(EscapeAll(s)) == Some(s)
    decreases |s|
  {
    if |s| > 0 {
      var rest := s[1..];
      UnescapeEscapeAll(rest);
      UnescapeEscape(s[0], EscapeAll(rest));
      EscapeAllCons(s);
      UnescapeCons(s, EscapeAll(s), Escape(s[0]), EscapeAll(rest));
    }
  }

  /** Reading back a first escape followed by the readable rest. */
  lemma {:induction false} UnescapeCons(s: seq<u8>, all: string, first: string, rest: string)
    requires |s| >= 1 && all == first + rest
    requires Unescape(rest) == Some(s[1..])
    requires Unescape(first + rest) == Some([s[0]] + Unescape(rest).value)
    ensures Unescape(all) == Some(s)
  {
    assert [s[0]] + s[1..] == s;
  }

  lemma {:induction false} UnescapeEscape(c: u8, t: string)
    requires Unescape(t).Some?
    ensures Unescape(Escape(c) + t) == Some([c] + Unescape(t).value)
  {
    if Plain(c) {
      UnescapePlain(c, t);
    } else {
      UnescapeHex(c, t);
    }
  }

  lemma {:induction false} UnescapePlain(c: u8, t: string)
    requires Unescape(t).Some? && Plain(c)
    ensures Unescape([c as char] + t) == Some([c] + Unescape(t).value)
  {
    var u := [c as char] + t;
    assert u[0] == c as char && u[1..] == t;
  }

  lemma {:induction false} UnescapeHex(c: u8, t: string)
    requires Unescape(t).Some? && !Plain(c)
    ensures Unescape(Escape(c) + t) == Some([c] + Unescape(t).value)
  {
    var hi, lo := c / 16, c % 16;
    var u := ['\\', 'x', GetHex(hi), GetHex(lo)] + t;
    assert Escape(c) + t == u;
    assert u[0] == '\\' && u[1] == 'x' && u[4..] == t;
    assert HexValue(u[2]) == Some(hi) && HexValue(u[3]) == Some(lo);
    assert (hi * 16 + lo) as u8 == c;
  }

  /** Escaping from the front: the first byte's escape, then the rest. */
  lemma {:induction false} EscapeAllCons(s: seq<u8>)
    requires |s| >= 1
    ensures EscapeAll(s) == Escape(s[0]) + EscapeAll(s[1..])
    decreases |s|
  {
    if |s| == 1 {
      assert s[..0] == [] && s[1..] == [];
    } else {
      var f, t := s[..|s| - 1], s[1..];
      EscapeAllCons(f);
      assert f[0] == s[0] && f[1..] == t[..|t| - 1] && t[|t| - 1] == s[|s| - 1];
      ConcatStep(EscapeAll(s), EscapeAll(f), EscapeAll(t), Escape(s[0]), EscapeAll(f[1..]), Escape(s[|s| - 1]));
    }
  }

  lemma ConcatStep(all: string, front: string, tail: string, a: string, b: string, c: string)
    requires all == front + c && front == a + b && tail == b + c
    ensures all == a + tail
  {
  }

  /** The source's escaping of a newline reads back as byte 0x0e. */
  lemma {:induction false} NewlineAsWritten()
    ensures EscapeAsWritten(10) == "\\x0e"
    ensures Unescape(EscapeAsWritten(10)) == Some([14])
  {
    assert GetHexAsWritten(0) == '0' && GetHexAsWritten(10) == 'e';
    var e := EscapeAsWritten(10);
    assert e == ['\\', 'x', '0', 'e'];
    assert e[4..] == [] && Unescape(e[4..]) == Some([]);
    assert HexValue(e[2]) == Some(0) && HexValue(e[3]) == Some(14);
    var b: seq<u8> := [14];
    assert [(0 * 16 + 14) as u8] + [] == b;
    assert Unescape(e) == Some(b);
  }

  /** The output text after the loop has consumed the first `n` bytes. */
  function Written(input: seq<u8>, n: nat): string
    requires n <= |input|
  {
    EscapeAll(input[..n])
  }

  /** How many input bytes the loop consumes from byte `i` on: it stops
      at the end of the input or once the output written so far reaches
      `limit`, the buffer size less five. */
  function Consumed(limit: int, input: seq<u8>, i: nat): (k: nat)
    requires i <= |input|
    ensures i <= k <= |input|
    ensures k == |input| || |Written(input, k)| >= limit
    decreases |input| - i
  {
    if i < |input| && |Written(input, i)| < limit then Consumed(limit, input, i + 1) else i
  }

  lemma ConsumedStep(limit: int, input: seq<u8>, i: nat)
    requires i < |input| && |Written(input, i)| < limit
    ensures Consumed(limit, input, i) == Consumed(limit, input, i + 1)
  {
  }

  /** `dump_string`: the escaping of the longest input prefix the loop
      gets through, then a NUL. The loop runs while fewer than
      `outSize - 5` characters are written, so each escape (at most four
      characters) still fits with the NUL. */
  method DumpString(outSize: int, input: seq<u8>) returns (out: string)
    requires outSize >= 1
    ensures out == EscapeAll(input[..Consumed(outSize - 5, input, 0)]) + ['\0']
    ensures |out| <= if outSize >= 5 then outSize - 1 else 1
    ensures out[|out| - 1] == '\0' && '\0' !in out[..|out| - 1]
  {
    var limit := outSize - 5;
    var o: string := "";
    var i := 0;
    while i < |input| && |o| < limit
      invariant 0 <= i <= |input|
      invariant o == EscapeAll(input[..i])
      invariant Consumed(limit, input, 0) == Consumed(limit, input, i)
      invariant |o| <= if limit >= 0 then limit + 3 else 0
      decreases |input| - i
    {
      ConsumedStep(limit, input, i);
      assert input[..i + 1][..i] == input[..i];
      o := o + Escape(input[i]);
      i := i + 1;
    }
    out := o + ['\0'];
    assert out[..|out| - 1] == o;
  }

  /** Truncation only drops input from the end: a longer buffer consumes
      at least as much, and what it writes extends the shorter one's
      text. */
  lemma {:induction false} ConsumedMonotone(l1: int, l2: int, input: seq<u8>, i: nat)
    requires l1 <= l2 && i <= |input|
    ensures Consumed(l1, input, i) <= Consumed(l2, input, i)
    decreases |input| - i
  {
    if i < |input| && |Written(input, i)| < l1 {
      ConsumedMonotone(l1, l2, input, i + 1);
    }
  }

  /** Escaping is a homomorphism on prefixes: the escaping of a shorter
      prefix starts the escaping of a longer one. */
  lemma {:induction false} EscapeAllPrefix(s: seq<u8>, k: nat)
    requires k <= |s|
    ensures EscapeAll(s[..k]) <= EscapeAll(s)
    decreases |s| - k
  {
    if k < |s| {
      EscapeAllPrefix(s[..|s| - 1], k);
      assert s[..|s| - 1][..k] == s[..k];
    } else {
      assert s[..k] == s;
    }
  }
}
