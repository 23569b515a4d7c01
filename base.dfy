/** Values and string helpers shared by every part of the model: Go's
    (value, error) pairs, bytes, and the few `strings`/`fmt` operations the
    deploy and serve code relies on, written over ASCII. */
module Base {

  datatype Option<T> = None | Some(value: T)

  /** A Go `(value, error)` pair where exactly one side is meaningful. */
  datatype Result<T> = Ok(value: T) | Err(msg: string)

  type byte = x: int | 0 <= x < 256

  /** `strings.HasPrefix`. */
  predicate HasPrefix(s: string, p: string) {
    |p| <= |s| && s[..|p|] == p
  }

  /** `strings.HasSuffix`. */
  predicate HasSuffix(s: string, p: string) {
    |p| <= |s| && s[|s| - |p|..] == p
  }

  function LowerChar(c: char): char {
    if 'A' <= c <= 'Z' then (c as int + 32) as char else c
  }

  /** `strings.ToLower`, for ASCII letters: no upper-case letter is left,
      each upper-case letter becomes its lower-case partner and every other
      character stays as it is. */
  function ToLower(s: string): (r: string)
    ensures |r| == |s|
    ensures forall i :: 0 <= i < |r| ==> !('A' <= r[i] <= 'Z')
    ensures forall i :: 0 <= i < |s| && 'A' <= s[i] <= 'Z' ==> r[i] as int == s[i] as int + 32
    ensures forall i :: 0 <= i < |s| && !('A' <= s[i] <= 'Z') ==> r[i] == s[i]
  {
    seq(|s|, i requires 0 <= i < |s| => LowerChar(s[i]))
  }

  /** The ASCII white space that `strings.TrimSpace` removes. */
  predicate IsSpace(c: char) {
    c == ' ' || c == '\t' || c == '\n' || c == '\r' || c == 11 as char || c == 12 as char
  }

  /** The input without its leading white space. */
  function TrimLeft(s: string): (r: string)
    ensures |r| <= |s| && HasSuffix(s, r)
    ensures forall k :: 0 <= k < |s| - |r| ==> IsSpace(s[k])
    ensures r == [] || !IsSpace(r[0])
  {
    if s != [] && IsSpace(s[0]) then
      var r := TrimLeft(s[1..]);
      assert s[|s| - |r|..] == s[1..][|s[1..]| - |r|..];
      r
    else s
  }

  /** The input without its trailing white space. */
  function TrimRight(s: string): (r: string)
    ensures |r| <= |s| && HasPrefix(s, r)
    ensures forall k :: |r| <= k < |s| ==> IsSpace(s[k])
    ensures r == [] || !IsSpace(r[|r| - 1])
  {
    if s != [] && IsSpace(s[|s| - 1]) then
      var r := TrimRight(s[..|s| - 1]);
      assert s[..|r|] == s[..|s| - 1][..|r|];
      r
    else s
  }

  /** `r` is the piece of `s` starting at `i`, and `s` has only white space
      before and after that piece. */
  predicate TrimmedAt(s: string, r: string, i: nat) {
    i + |r| <= |s| && r == s[i..i + |r|] &&
    (forall k :: 0 <= k < i ==> IsSpace(s[k])) &&
    (forall k :: i + |r| <= k < |s| ==> IsSpace(s[k]))
  }

  /** `strings.TrimSpace`: the piece of the input between its leading and
      its trailing white space, with no white space left at either end. */
  function TrimSpace(s: string): (r: string)
    ensures |r| <= |s|
    ensures exists i: nat :: TrimmedAt(s, r, i)
    ensures r == [] || (!IsSpace(r[0]) && !IsSpace(r[|r| - 1]))
  {
    var l := TrimLeft(s);
    var r := TrimRight(l);
    TrimmedPieces(s, l, r);
    r
  }

  /** Trimming the leading, then the trailing white space leaves a piece
      with white space only on both sides of it. */
  lemma TrimmedPieces(s: string, l: string, r: string)
    requires l == TrimLeft(s) && r == TrimRight(l)
    ensures TrimmedAt(s, r, |s| - |l|)
    ensures r != [] ==> r[0] == l[0]
  {
    PieceOf(s, l, r);
  }

  /** A prefix `r` of a suffix `l` of `s`, with white space around both. */
  lemma PieceOf(s: string, l: string, r: string)
    requires |l| <= |s| && l == s[|s| - |l|..] && |r| <= |l| && r == l[..|r|]
    requires forall k :: 0 <= k < |s| - |l| ==> IsSpace(s[k])
    requires forall k :: |r| <= k < |l| ==> IsSpace(l[k])
    ensures TrimmedAt(s, r, |s| - |l|)
  {
    var i := |s| - |l|;
    assert r == s[i..i + |r|];
    forall k | i + |r| <= k < |s|
      ensures IsSpace(s[k])
    {
      assert s[k] == l[k - i];
    }
  }

  /** The UTF-8 encoding of one character: one byte below 0x80 (the
      character itself), otherwise a lead byte of at least 0xC0 followed by
      continuation bytes. */
  function Utf8Char(c: char): (b: seq<byte>)
    ensures 1 <= |b| <= 4
    ensures (b[0] < 0x80) <==> (c as int < 0x80)
    ensures c as int < 0x80 ==> b == [c as int]
  {
    var n := c as int;
    if n < 0x80 then [n]
    else if n < 0x800 then [0xC0 + n / 64, 0x80 + n % 64]
    else if n < 0x1_0000 then [0xE0 + n / 4096, 0x80 + (n / 64) % 64, 0x80 + n % 64]
    else [0xF0 + n / 0x4_0000, 0x80 + (n / 4096) % 64, 0x80 + (n / 64) % 64, 0x80 + n % 64]
  }

  /** A Go string's bytes: the UTF-8 encoding of its characters; Go's `len`
      is the length of this sequence, never less than the number of
      characters. */
  function Utf8(s: string): (b: seq<byte>)
    ensures |b| >= |s|
    decreases |s|
  {
    if s == [] then [] else Utf8Char(s[0]) + Utf8(s[1..])
  }

  /** A string has as many bytes as characters exactly when it is ASCII. */
  lemma {:induction false} Utf8Length(s: string)
    ensures |Utf8(s)| == |s| <==> forall k :: 0 <= k < |s| ==> s[k] as int < 0x80
    decreases |s|
  {
    if s != [] {
      Utf8Length(s[1..]);
      assert Utf8(s) == Utf8Char(s[0]) + Utf8(s[1..]);
      assert forall k :: 0 <= k < |s[1..]| ==> s[1..][k] == s[k + 1];
      if forall k :: 0 <= k < |s| ==> s[k] as int < 0x80 {
        assert s[0] as int < 0x80;
      } else {
        var k :| 0 <= k < |s| && s[k] as int >= 0x80;
        if k > 0 {
          assert s[1..][k - 1] as int >= 0x80;
        }
      }
    }
  }

  /** Comparing the first `|p|` bytes of `s` with an ASCII `p` (Go's
      `s[:len(p)] == p`) is the same as asking whether `s` starts with the
      characters of `p`: ASCII bytes only ever encode ASCII characters. */
  lemma {:induction false} Utf8AsciiPrefix(s: string, p: string)
    requires forall k :: 0 <= k < |p| ==> p[k] as int < 0x80
    requires |Utf8(s)| >= |p|
    ensures |Utf8(p)| == |p|
    ensures Utf8(s)[..|p|] == Utf8(p) <==> HasPrefix(s, p)
    decreases |p|
  {
    Utf8Length(p);
    if p != [] {
      assert s != [];
      var c := Utf8Char(s[0]);
      var rest := Utf8(s[1..]);
      assert Utf8(s) == c + rest;
      assert Utf8(p) == [p[0] as int] + Utf8(p[1..]);
      if s[0] as int < 0x80 {
        assert c == [s[0] as int];
        Utf8AsciiPrefix(s[1..], p[1..]);
        var lhs := Utf8(s)[..|p|];
        assert lhs == [s[0] as int] + rest[..|p| - 1];
        if lhs == Utf8(p) {
          assert lhs[0] == Utf8(p)[0];
          assert lhs[1..] == rest[..|p| - 1];
          assert Utf8(p)[1..] == Utf8(p[1..]);
          assert s[..|p|] == [s[0]] + s[1..][..|p| - 1];
        }
        if HasPrefix(s, p) {
          assert s[0] == s[..|p|][0] == p[0];
          assert s[1..][..|p| - 1] == p[1..];
        }
      } else {
        assert Utf8(s)[..|p|][0] == c[0] != Utf8(p)[0];
        if |p| <= |s| {
          assert s[..|p|][0] == s[0] != p[0];
        }
      }
    }
  }

  /** The bytes of a concatenation are the bytes of its parts. */
  lemma {:induction false} Utf8Append(a: string, b: string)
    ensures Utf8(a + b) == Utf8(a) + Utf8(b)
    decreases |a|
  {
    if a != [] {
      assert (a + b)[0] == a[0];
      assert (a + b)[1..] == a[1..] + b;
      Utf8Append(a[1..], b);
      calc {
        Utf8(a + b);
        Utf8Char(a[0]) + Utf8(a[1..] + b);
        Utf8Char(a[0]) + (Utf8(a[1..]) + Utf8(b));
        (Utf8Char(a[0]) + Utf8(a[1..])) + Utf8(b);
      }
    } else {
      assert a + b == b;
    }
  }

  /** Go's `s[1:]` drops the first byte; when the first character is ASCII
      that byte is the whole character, so the result is the rest of the
      characters. */
  lemma DropAsciiHead(s: string)
    requires s != [] && s[0] as int < 0x80
    ensures Utf8(s[1..]) == Utf8(s)[1..]
  {
    assert Utf8(s) == [s[0] as int] + Utf8(s[1..]);
  }

  /** `strings.Split(s, string(sep))` for a one-character separator: the
      pieces between separators, always at least one. */
  function Split(s: string, sep: char): (r: seq<string>)
    ensures |r| >= 1
    ensures forall i :: 0 <= i < |r| ==> sep !in r[i]
    decreases |s|
  {
    if s == [] then [""]
    else
      var rest := Split(s[1..], sep);
      if s[0] == sep then [""] + rest
      else [[s[0]] + rest[0]] + rest[1..]
  }

  /** `strings.Join(xs, string(sep))`. */
  function Join(xs: seq<string>, sep: char): string
    decreases |xs|
  {
    if |xs| == 0 then ""
    else if |xs| == 1 then xs[0]
    else xs[0] + [sep] + Join(xs[1..], sep)
  }

  /** Joining the pieces of a split gives the original string back. */
  lemma {:induction false} JoinSplit(s: string, sep: char)
    ensures Join(Split(s, sep), sep) == s
    decreases |s|
  {
    if s != [] {
      var rest := Split(s[1..], sep);
      JoinSplit(s[1..], sep);
      if s[0] == sep {
        assert Split(s, sep) == [""] + rest;
        assert ([""] + rest)[1..] == rest;
      } else {
        var r := Split(s, sep);
        assert r == [[s[0]] + rest[0]] + rest[1..];
        if |rest| == 1 {
          assert r == [[s[0]] + rest[0]];
        } else {
          assert r[1..] == rest[1..];
          assert Join(rest, sep) == rest[0] + [sep] + Join(rest[1..], sep);
        }
      }
    }
  }

  /** Splitting a join of separator-free pieces gives the pieces back. */
  lemma {:induction false} SplitJoin(xs: seq<string>, sep: char)
    requires |xs| >= 1
    requires forall i :: 0 <= i < |xs| ==> sep !in xs[i]
    ensures Split(Join(xs, sep), sep) == xs
    decreases |xs|, |xs[0]|
  {
    if |xs| == 1 {
      SplitNoSep(xs[0], sep);
    } else if xs[0] == [] {
      var tail := xs[1..];
      SplitJoin(tail, sep);
      assert Join(xs, sep) == [sep] + Join(tail, sep);
      SplitCons(sep, Join(tail, sep), sep);
      assert xs == [""] + tail;
    } else {
      var c := xs[0][0];
      var ys := [xs[0][1..]] + xs[1..];
      assert ys[0] == xs[0][1..];
      assert forall i :: 1 <= i < |ys| ==> ys[i] == xs[i];
      assert sep !in ys[0] by {
        assert forall k :: 0 <= k < |ys[0]| ==> ys[0][k] == xs[0][k + 1];
      }
      SplitJoin(ys, sep);
      assert ys[1..] == xs[1..];
      assert Join(xs, sep) == [c] + Join(ys, sep);
      assert xs[0] == [c] + ys[0];
      assert c != sep by { assert xs[0][0] in xs[0]; }
      SplitCons(c, Join(ys, sep), sep);
    }
  }

  /** One step of `Split`: a character in front either starts a new part
      (the separator) or joins the first part. */
  lemma SplitCons(c: char, t: string, sep: char)
    ensures Split([c] + t, sep) ==
      if c == sep then [""] + Split(t, sep) else [[c] + Split(t, sep)[0]] + Split(t, sep)[1..]
  {
    assert ([c] + t)[1..] == t;
  }

  lemma {:induction false} SplitNoSep(s: string, sep: char)
    requires sep !in s
    ensures Split(s, sep) == [s]
    decreases |s|
  {
    if s != [] {
      assert sep !in s[1..] by {
        assert forall k :: 0 <= k < |s[1..]| ==> s[1..][k] == s[k + 1];
      }
      SplitNoSep(s[1..], sep);
      assert s[0] in s;
      assert [s[0]] + s[1..] == s;
    }
  }

  function DigitChar(d: nat): char
    requires d < 10
  {
    ('0' as int + d) as char
  }

  /** The number a string of decimal digits denotes, most significant
      digit first. */
  function DecimalValue(s: string): int
    decreases |s|
  {
    if s == [] then 0 else DecimalValue(s[..|s| - 1]) * 10 + (s[|s| - 1] as int - '0' as int)
  }

  /** `fmt.Sprint` of a non-negative int: decimal digits with no leading
      zero; NatToDecimalValue shows they denote `n`. */
  function NatToDecimal(n: nat): (r: string)
    ensures |r| >= 1
    ensures forall i :: 0 <= i < |r| ==> '0' <= r[i] <= '9'
    ensures n >= 10 ==> r[0] != '0'
    decreases n
  {
    if n < 10 then [DigitChar(n)] else NatToDecimal(n / 10) + [DigitChar(n % 10)]
  }

  /** The digits NatToDecimal writes denote the number they were written
      for. */
  lemma {:induction false} NatToDecimalValue(n: nat)
    ensures DecimalValue(NatToDecimal(n)) == n
    decreases n
  {
    var r := NatToDecimal(n);
    if n < 10 {
      assert r[..0] == [];
    } else {
      var p := NatToDecimal(n / 10);
      NatToDecimalValue(n / 10);
      assert r[..|r| - 1] == p;
    }
  }

  /** `fmt.Sprint` / `%d` of an int: a '-' exactly for negative numbers,
      followed by the digits of the absolute value. */
  function IntToDecimal(i: int): (r: string)
    ensures |r| >= 1
    ensures (r[0] == '-') <==> i < 0
    ensures i >= 0 ==> r == NatToDecimal(i)
    ensures i < 0 ==> |r| >= 2 && r[1..] == NatToDecimal(-i)
  {
    if i < 0 then
      var p := NatToDecimal(-i);
      assert ("-" + p)[1..] == p;
      "-" + p
    else NatToDecimal(i)
  }

  /** The piece after the last separator of a string that ends with a
      separator followed by `w` (free of separators) is `w`. */
  lemma {:induction false} SplitLast(s: string, sep: char, w: string)
    requires sep !in w && HasSuffix(s, [sep] + w)
    ensures |Split(s, sep)| >= 2 && Split(s, sep)[|Split(s, sep)| - 1] == w
    decreases |s|
  {
    if |s| == |w| + 1 {
      assert s == [sep] + w;
      assert s[1..] == w;
      SplitNoSep(w, sep);
    } else {
      assert HasSuffix(s[1..], [sep] + w) by {
        assert s[1..][|s[1..]| - |w| - 1..] == s[|s| - |w| - 1..];
      }
      SplitLast(s[1..], sep, w);
    }
  }
}
