/** Python string primitives used by the host code: `str.split(sep)`,
    `sep.join`, `str.strip()`, `str.split()` and `str(int)`. */
module Strings {

  /** `s.split(sep)` for a one-character separator: the pieces between
      separators, never empty, and `[""]` for the empty string. */
  function Split(s: string, sep: char): (r: seq<string>)
    ensures |r| >= 1
    decreases |s|
  {
    if |s| == 0 then [""]
    else
      var rest := Split(s[1..], sep);
      if s[0] == sep then [""] + rest else [[s[0]] + rest[0]] + rest[1..]
  }

  /** `sep.join(parts)`. */
  function Join(parts: seq<string>, sep: char): string
    decreases |parts|
  {
    if |parts| == 0 then ""
    else if |parts| == 1 then parts[0]
    else parts[0] + [sep] + Join(parts[1..], sep)
  }

  function Last<T>(s: seq<T>): T
    requires |s| > 0
  {
    s[|s| - 1]
  }

  /** The position of the first occurrence of `c` in `s`. */
  function IndexOf(s: string, c: char): (i: nat)
    requires c in s
    ensures i < |s| && s[i] == c
    decreases |s|
  {
    if s[0] == c then 0 else 1 + IndexOf(s[1..], c)
  }

  /** Nothing before the first occurrence is the character. */
  lemma {:induction false} IndexOfFirst(s: string, c: char)
    requires c in s
    ensures c !in s[..IndexOf(s, c)]
    decreases |s|
  {
    if s[0] != c {
      assert c in s[1..] by {
        var k :| 0 <= k < |s| && s[k] == c;
        assert s[1..][k - 1] == c;
      }
      IndexOfFirst(s[1..], c);
      var i := IndexOf(s[1..], c);
      assert s[..i + 1] == [s[0]] + s[1..][..i];
    }
  }

  /** The split of a string that starts with a character. */
  lemma {:induction false} SplitCons(c: char, t: string, sep: char)
    ensures c == sep ==> Split([c] + t, sep) == [""] + Split(t, sep)
    ensures c != sep ==> Split([c] + t, sep) == [[c] + Split(t, sep)[0]] + Split(t, sep)[1..]
  {
    assert ([c] + t)[1..] == t;
  }

  /** A string without the separator is one piece. */
  lemma {:induction false} SplitNone(s: string, sep: char)
    requires sep !in s
    ensures Split(s, sep) == [s]
    decreases |s|
  {
    if |s| > 0 {
      SplitNone(s[1..], sep);
      SplitCons(s[0], s[1..], sep);
      assert s == [s[0]] + s[1..];
    }
  }

  /** No piece of a split holds the separator. */
  lemma {:induction false} SplitFree(s: string, sep: char)
    ensures forall i :: 0 <= i < |Split(s, sep)| ==> sep !in Split(s, sep)[i]
    decreases |s|
  {
    if |s| > 0 {
      var rest := Split(s[1..], sep);
      SplitFree(s[1..], sep);
      var r := Split(s, sep);
      forall j | 0 <= j < |r| ensures sep !in r[j] {
        if s[0] == sep {
          if j > 0 {
            assert r[j] == rest[j - 1];
          }
        } else if j > 0 {
          assert r[j] == rest[j];
        } else {
          assert r[0] == [s[0]] + rest[0];
        }
      }
    }
  }

  /** Joining the pieces of a split gives back the original string. */
  lemma {:induction false} JoinSplit(s: string, sep: char)
    ensures Join(Split(s, sep), sep) == s
    decreases |s|
  {
    if |s| > 0 {
      var rest := Split(s[1..], sep);
      JoinSplit(s[1..], sep);
      if s[0] == sep {
        assert ([""] + rest)[1..] == rest;
      } else {
        JoinPrefixFirst([s[0]], rest, sep);
      }
      assert s == [s[0]] + s[1..];
    }
  }

  /** A prefix put in front of the first piece comes first in the join. */
  lemma {:induction false} JoinPrefixFirst(p: string, parts: seq<string>, sep: char)
    requires |parts| >= 1
    ensures Join([p + parts[0]] + parts[1..], sep) == p + Join(parts, sep)
  {
    var q := [p + parts[0]] + parts[1..];
    if |parts| > 1 {
      assert q[1..] == parts[1..];
    }
  }

  /** Splitting a join of separator-free pieces gives back the pieces. */
  lemma {:induction false} SplitJoin(parts: seq<string>, sep: char)
    requires |parts| >= 1
    requires forall i :: 0 <= i < |parts| ==> sep !in parts[i]
    ensures Split(Join(parts, sep), sep) == parts
    decreases |parts|
  {
    var p := parts[0];
    SplitNone(p, sep);
    if |parts| > 1 {
      var tl := parts[1..];
      var j := Join(tl, sep);
      assert Split(j, sep) == tl by {
        assert forall i :: 0 <= i < |tl| ==> sep !in tl[i] by {
          forall i | 0 <= i < |tl| ensures sep !in tl[i] {
            assert tl[i] == parts[i + 1];
          }
        }
        SplitJoin(tl, sep);
      }
      var sj := Split([sep] + j, sep);
      assert sj == [""] + tl by {
        SplitCons(sep, j, sep);
      }
      assert Split(Join(parts, sep), sep) == [p + sj[0]] + sj[1..] by {
        assert Join(parts, sep) == p + ([sep] + j);
        SplitAppend(p, [sep] + j, sep);
      }
      assert p + sj[0] == p;
      assert sj[1..] == tl;
      assert parts == [p] + tl;
    }
  }

  /** The pieces of `x` then those of `y`, the last of `x` fused with the
      first of `y`. */
  function Fuse(x: seq<string>, y: seq<string>): seq<string>
    requires |x| >= 1 && |y| >= 1
  {
    x[..|x| - 1] + [Last(x) + y[0]] + y[1..]
  }

  /** Splitting a concatenation: the last piece of `a` fuses with the first
      piece of `b`. This is what makes chunked input framing work. */
  lemma {:induction false} SplitAppend(a: string, b: string, sep: char)
    ensures Split(a + b, sep) ==
      Split(a, sep)[..|Split(a, sep)| - 1]
      + [Last(Split(a, sep)) + Split(b, sep)[0]]
      + Split(b, sep)[1..]
    decreases |a|
  {
    var sb := Split(b, sep);
    if |a| == 0 {
      assert a + b == b;
      assert Split(a, sep) == [""];
      assert "" + sb[0] == sb[0];
      assert [sb[0]] + sb[1..] == sb;
    } else {
      var c := a[0];
      var t := a[1..];
      var st := Split(t, sep);
      var sa := if c == sep then [""] + st else [[c] + st[0]] + st[1..];
      assert Split(a, sep) == sa by {
        assert a == [c] + t;
        SplitCons(c, t, sep);
      }
      var m := Split(t + b, sep);
      assert Split(a + b, sep) == if c == sep then [""] + m else [[c] + m[0]] + m[1..] by {
        assert a + b == [c] + (t + b);
        SplitCons(c, t + b, sep);
      }
      assert m == Fuse(st, sb) by {
        SplitAppend(t, b, sep);
      }
      SplitAppendCons(c, st, sb, sep);
    }
  }

  /** The list step of `SplitAppend`: with the split of the tail fused,
      putting one character in front fuses the same way. */
  lemma {:induction false} SplitAppendCons(c: char, st: seq<string>, sb: seq<string>, sep: char)
    requires |st| >= 1 && |sb| >= 1
    ensures var m := Fuse(st, sb);
      var sa := if c == sep then [""] + st else [[c] + st[0]] + st[1..];
      (c == sep ==> [""] + m == Fuse(sa, sb))
      && (c != sep ==> [[c] + m[0]] + m[1..] == Fuse(sa, sb))
  {
    var m := Fuse(st, sb);
    if c == sep {
      var sa := [""] + st;
      assert sa[..|sa| - 1] == [""] + st[..|st| - 1];
    } else {
      var sa := [[c] + st[0]] + st[1..];
      if |st| == 1 {
        assert m == [st[0] + sb[0]] + sb[1..];
        assert sa[..|sa| - 1] == [];
        assert [c] + (st[0] + sb[0]) == ([c] + st[0]) + sb[0];
      } else {
        assert m[0] == st[0];
        assert m[1..] == st[1..|st| - 1] + [Last(st) + sb[0]] + sb[1..];
        assert sa[..|sa| - 1] == [[c] + st[0]] + st[1..|st| - 1];
      }
    }
  }

  /** The characters Python's `str.strip()` removes from ASCII text. */
  predicate IsSpace(c: char) {
    c == ' ' || c == '\t' || c == '\n' || c == '\r' || c == '\U{000B}' || c == '\U{000C}'
  }

  /** `s.lstrip()`. */
  function LStrip(s: string): (r: string)
    ensures |r| <= |s| && r == s[|s| - |r|..]
    ensures forall i :: 0 <= i < |s| - |r| ==> IsSpace(s[i])
    ensures |r| == 0 || !IsSpace(r[0])
    decreases |s|
  {
    if |s| > 0 && IsSpace(s[0]) then LStrip(s[1..]) else s
  }

  /** `s.rstrip()`. */
  function RStrip(s: string): (r: string)
    ensures |r| <= |s| && r == s[..|r|]
    ensures forall i :: |r| <= i < |s| ==> IsSpace(s[i])
    ensures |r| == 0 || !IsSpace(r[|r| - 1])
    decreases |s|
  {
    if |s| > 0 && IsSpace(s[|s| - 1]) then RStrip(s[..|s| - 1]) else s
  }

  /** `s.strip()`: the middle of `s` between its leading and trailing
      white space. */
  function Strip(s: string): (r: string)
    ensures |r| <= |s|
    ensures |r| == 0 || (!IsSpace(r[0]) && !IsSpace(r[|r| - 1]))
  {
    RStrip(LStrip(s))
  }

  /** A string with no white space at either end is its own strip. */
  lemma StripClean(s: string)
    requires |s| == 0 || (!IsSpace(s[0]) && !IsSpace(s[|s| - 1]))
    ensures Strip(s) == s
  {
  }

  predicate IsDigit(c: char) {
    '0' <= c <= '9'
  }

  function DigitChar(d: int): (c: char)
    requires 0 <= d < 10
    ensures IsDigit(c)
  {
    ('0' as int + d) as char
  }

  /** `str(n)` for a natural number: its shortest decimal spelling. */
  function NatToString(n: nat): (r: string)
    ensures |r| >= 1
    ensures forall i :: 0 <= i < |r| ==> IsDigit(r[i])
    ensures r[0] != '0' || n == 0
    decreases n
  {
    if n < 10 then [DigitChar(n)] else NatToString(n / 10) + [DigitChar(n % 10)]
  }

  /** The value of a string of decimal digits. */
  function ParseNat(s: string): nat
    requires forall i :: 0 <= i < |s| ==> IsDigit(s[i])
    decreases |s|
  {
    if |s| == 0 then 0
    else
      assert IsDigit(s[|s| - 1]);
      10 * ParseNat(s[..|s| - 1]) + (s[|s| - 1] as int - '0' as int)
  }

  /** Reading back the decimal spelling of `n` gives `n`. */
  lemma {:induction false} ParseNatToString(n: nat)
    ensures ParseNat(NatToString(n)) == n
    decreases n
  {
    if n >= 10 {
      ParseNatToString(n / 10);
      var s := NatToString(n);
      assert s[..|s| - 1] == NatToString(n / 10);
    }
  }

  /** Distinct numbers have distinct decimal spellings. */
  lemma {:induction false} NatToStringInjective(m: nat, n: nat)
    requires NatToString(m) == NatToString(n)
    ensures m == n
  {
    ParseNatToString(m);
    ParseNatToString(n);
  }

  /** `str(n)` for a Python int, with a leading '-' when negative. */
  function IntToString(n: int): (r: string)
    ensures n >= 0 ==> r == NatToString(n)
    ensures n < 0 ==> r == "-" + NatToString(-n)
  {
    if n >= 0 then NatToString(n) else "-" + NatToString(-n)
  }

  /** `s.split()` with no argument: the maximal runs of non-space
      characters, in order. */
  function SplitWords(s: string): (r: seq<string>)
    ensures forall i :: 0 <= i < |r| ==> IsWord(r[i])
    decreases |s|
  {
    if |s| == 0 then []
    else if IsSpace(s[0]) then SplitWords(s[1..])
    else
      var w := Word(s);
      [w] + SplitWords(s[|w|..])
  }

  /** A non-empty run of non-space characters. */
  predicate IsWord(w: string) {
    |w| > 0 && forall j :: 0 <= j < |w| ==> !IsSpace(w[j])
  }

  /** The leading run of non-space characters of `s`. */
  function Word(s: string): (r: string)
    ensures |r| <= |s| && r == s[..|r|]
    ensures forall j :: 0 <= j < |r| ==> !IsSpace(r[j])
    ensures |r| == |s| || IsSpace(s[|r|])
    ensures |s| > 0 && !IsSpace(s[0]) ==> |r| > 0
    decreases |s|
  {
    if |s| == 0 || IsSpace(s[0]) then "" else [s[0]] + Word(s[1..])
  }
}
