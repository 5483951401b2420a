/** The few Python `str` operations the routine relies on: `isspace` (the
    whitespace that `split()` and `strip()` use), `strip`, `split` with no
    separator, `in` between strings, `startswith`, and `str` of an `int`. */
module Text {

  /** Python's `str.isspace()` for one character: the ASCII controls
      \t \n \v \f \r, the separators \x1c-\x1f, the space, and the Unicode
      space characters (NEL, NBSP, OGHAM SPACE MARK, U+2000-U+200A, the line
      and paragraph separators, NNBSP, MMSP and the ideographic space). */
  predicate IsSpace(c: char) {
    || c == ' '
    || ('\t' <= c <= '\r')
    || ('\U{1c}' <= c <= '\U{1f}')
    || c == '\U{85}' || c == '\U{a0}' || c == '\U{1680}'
    || ('\U{2000}' <= c <= '\U{200a}')
    || c == '\U{2028}' || c == '\U{2029}' || c == '\U{202f}'
    || c == '\U{205f}' || c == '\U{3000}'
  }

  predicate NoSpace(s: string) {
    forall i :: 0 <= i < |s| ==> !IsSpace(s[i])
  }

  predicate AllSpace(s: string) {
    forall i :: 0 <= i < |s| ==> IsSpace(s[i])
  }

  lemma AllSpaceAppend(a: string, b: string)
    requires AllSpace(a) && AllSpace(b)
    ensures AllSpace(a + b)
  {
    forall i | 0 <= i < |a + b| ensures IsSpace((a + b)[i]) {
      if i < |a| {
        assert (a + b)[i] == a[i];
      } else {
        assert (a + b)[i] == b[i - |a|];
      }
    }
  }

  /** `s.lstrip()`. */
  function TrimLeft(s: string): string
    decreases |s|
  {
    if s != [] && IsSpace(s[0]) then TrimLeft(s[1..]) else s
  }

  /** `s.rstrip()`. */
  function TrimRight(s: string): string
    decreases |s|
  {
    if s != [] && IsSpace(s[|s| - 1]) then TrimRight(s[..|s| - 1]) else s
  }

  /** `lstrip` drops the leading whitespace and nothing else. */
  lemma {:induction false} TrimLeftSpec(s: string)
    ensures var r := TrimLeft(s);
      && |r| <= |s| && r == s[|s| - |r|..]
      && AllSpace(s[..|s| - |r|])
      && (r == [] || !IsSpace(r[0]))
    decreases |s|
  {
    if s != [] && IsSpace(s[0]) {
      var t := s[1..];
      var r := TrimLeft(t);
      TrimLeftSpec(t);
      assert TrimLeft(s) == r;
      assert r == s[|s| - |r|..] by {
        assert t[|t| - |r|..] == s[|s| - |r|..];
      }
      assert AllSpace(s[..|s| - |r|]) by {
        assert s[..|s| - |r|] == [s[0]] + t[..|t| - |r|];
        AllSpaceAppend([s[0]], t[..|t| - |r|]);
      }
    } else {
      assert s[..0] == [];
    }
  }

  /** `rstrip` drops the trailing whitespace and nothing else. */
  lemma {:induction false} TrimRightSpec(s: string)
    ensures var r := TrimRight(s);
      && |r| <= |s| && r == s[..|r|]
      && AllSpace(s[|r|..])
      && (r == [] || !IsSpace(r[|r| - 1]))
    decreases |s|
  {
    if s != [] && IsSpace(s[|s| - 1]) {
      var p := s[..|s| - 1];
      var r := TrimRight(p);
      TrimRightSpec(p);
      assert TrimRight(s) == r;
      assert r == s[..|r|] by {
        assert p[..|r|] == s[..|r|];
      }
      assert AllSpace(s[|r|..]) by {
        assert s[|r|..] == p[|r|..] + [s[|s| - 1]];
        AllSpaceAppend(p[|r|..], [s[|s| - 1]]);
      }
    } else {
      assert s[|s|..] == [];
    }
  }

  /** `s.strip()`. */
  function Strip(s: string): string {
    TrimRight(TrimLeft(s))
  }

  /** `s.strip()` is empty exactly when `s` is all whitespace. */
  lemma StripEmptyIff(s: string)
    ensures Strip(s) == [] <==> AllSpace(s)
  {
    var t := TrimLeft(s);
    var r := TrimRight(t);
    var i := |s| - |t|;
    TrimLeftSpec(s);
    TrimRightSpec(t);
    assert t == s[i..];
    if r == [] {
      assert t[|r|..] == t;
      assert t == [];
      assert s[..i] == s;
    }
  }

  /** Python's `pat in s` for strings: `pat` occurs as a substring of `s`. */
  predicate Contains(s: string, pat: string) {
    exists i | 0 <= i <= |s| - |pat| :: OccursAt(s, pat, i)
  }

  predicate OccursAt(s: string, pat: string, i: int) {
    0 <= i <= |s| - |pat| && s[i..i + |pat|] == pat
  }

  /** Python's `s.startswith(p)`. */
  predicate StartsWith(s: string, p: string) {
    |p| <= |s| && s[..|p|] == p
  }

  /** Length of the run of non-whitespace characters that `s` begins with. */
  function TokenLength(s: string): (n: nat)
    ensures n <= |s| && NoSpace(s[..n]) && (n < |s| ==> IsSpace(s[n]))
    decreases |s|
  {
    if s == [] || IsSpace(s[0]) then 0
    else
      var n := TokenLength(s[1..]);
      assert s[..1 + n] == [s[0]] + s[1..][..n];
      1 + n
  }

  /** `s.split()` with no separator: the maximal runs of non-whitespace
      characters, in order; no token is empty or holds whitespace. */
  function Split(s: string): (r: seq<string>)
    ensures forall k :: 0 <= k < |r| ==> r[k] != [] && NoSpace(r[k])
    decreases |s|
  {
    if s == [] then []
    else if IsSpace(s[0]) then Split(s[1..])
    else
      var n := TokenLength(s);
      [s[..n]] + Split(s[n..])
  }

  /** `" ".join(tokens)`. */
  function Join(tokens: seq<string>): string
    decreases |tokens|
  {
    if tokens == [] then []
    else if |tokens| == 1 then tokens[0]
    else tokens[0] + " " + Join(tokens[1..])
  }

  lemma {:induction false} TokenLengthOfToken(t: string, rest: string)
    requires NoSpace(t)
    requires rest == [] || IsSpace(rest[0])
    ensures TokenLength(t + rest) == |t|
    decreases |t|
  {
    if t != [] {
      assert (t + rest)[1..] == t[1..] + rest;
      TokenLengthOfToken(t[1..], rest);
    } else {
      assert t + rest == rest;
    }
  }

  lemma {:induction false} SplitAllSpace(s: string)
    requires AllSpace(s)
    ensures Split(s) == []
    decreases |s|
  {
    if s != [] {
      SplitAllSpace(s[1..]);
    }
  }

  /** A token followed by whitespace is split off as the first token. */
  lemma SplitToken(t: string, c: char, rest: string)
    requires t != [] && NoSpace(t) && IsSpace(c)
    ensures Split(t + [c] + rest) == [t] + Split(rest)
  {
    var s := t + [c] + rest;
    assert s == t + ([c] + rest);
    TokenLengthOfToken(t, [c] + rest);
    assert s[..|t|] == t;
    assert s[|t|..] == [c] + rest;
    assert ([c] + rest)[1..] == rest;
  }

  /** `split()` inverts `" ".join` followed by any trailing whitespace, when
      no token is empty or holds whitespace. */
  lemma {:induction false} SplitJoin(tokens: seq<string>, tail: string)
    requires forall k :: 0 <= k < |tokens| ==> tokens[k] != [] && NoSpace(tokens[k])
    requires AllSpace(tail)
    ensures Split(Join(tokens) + tail) == tokens
    decreases |tokens|
  {
    if tokens == [] {
      assert Join(tokens) + tail == tail;
      SplitAllSpace(tail);
    } else if |tokens| == 1 {
      var t := tokens[0];
      if tail == [] {
        TokenLengthOfToken(t, []);
        assert t + tail == t;
        assert t[..|t|] == t;
        assert t[|t|..] == [];
      } else {
        assert t + tail == t + [tail[0]] + tail[1..];
        SplitToken(t, tail[0], tail[1..]);
        SplitAllSpace(tail[1..]);
      }
    } else {
      var rest := Join(tokens[1..]) + tail;
      assert Join(tokens) + tail == tokens[0] + [' '] + rest;
      SplitToken(tokens[0], ' ', rest);
      SplitJoin(tokens[1..], tail);
      assert [tokens[0]] + tokens[1..] == tokens;
    }
  }

  /** `ws[0] + toks[0] + ws[1] + ... + toks[|toks| - 1] + ws[|toks|]`: the
      tokens with a separator before, between and after them. */
  function Interleave(ws: seq<string>, toks: seq<string>): string
    requires |ws| == |toks| + 1
    decreases |toks|
  {
    if toks == [] then ws[0] else ws[0] + toks[0] + Interleave(ws[1..], toks[1..])
  }

  /** Separators around `n` tokens: `n + 1` runs of whitespace, those
      between two tokens non-empty. */
  predicate Separators(ws: seq<string>, n: nat) {
    && |ws| == n + 1
    && (forall k :: 0 <= k < |ws| ==> AllSpace(ws[k]))
    && (forall k :: 0 < k < n ==> ws[k] != [])
  }

  /** A line of tokens and separators starts with its first separator. */
  lemma InterleaveStarts(ws: seq<string>, toks: seq<string>)
    requires |ws| == |toks| + 1
    ensures |ws[0]| <= |Interleave(ws, toks)| && Interleave(ws, toks)[..|ws[0]|] == ws[0]
  {
    if toks != [] {
      assert Interleave(ws, toks) == ws[0] + (toks[0] + Interleave(ws[1..], toks[1..]));
    }
  }

  /** Whitespace put before a line of tokens joins its first separator. */
  lemma InterleavePrepend(p: string, ws: seq<string>, toks: seq<string>)
    requires |ws| == |toks| + 1
    ensures Interleave(ws[0 := p + ws[0]], toks) == p + Interleave(ws, toks)
  {
    var ws' := ws[0 := p + ws[0]];
    if toks != [] {
      assert ws'[1..] == ws[1..];
    }
  }

  /** A line of tokens and separators that starts with whitespace has a
      non-empty first separator. */
  lemma LeadingSeparator(ws: seq<string>, toks: seq<string>)
    requires |ws| == |toks| + 1 && toks != [] && toks[0] != [] && NoSpace(toks[0])
    requires Interleave(ws, toks) != [] && IsSpace(Interleave(ws, toks)[0])
    ensures ws[0] != []
  {
    var x := toks[0] + Interleave(ws[1..], toks[1..]);
    assert Interleave(ws, toks) == ws[0] + x;
    assert x[0] == toks[0][0];
    assert Interleave(ws, toks)[0] != x[0];
  }

  /** Splitting skips leading whitespace. */
  lemma {:induction false} SplitSkipSpace(w: string, s: string)
    requires AllSpace(w)
    ensures Split(w + s) == Split(s)
    decreases |w|
  {
    if w != [] {
      assert (w + s)[1..] == w[1..] + s;
      SplitSkipSpace(w[1..], s);
    } else {
      assert w + s == s;
    }
  }

  /** A token followed by nothing or by whitespace is split off first. */
  lemma SplitTokenThen(t: string, rest: string)
    requires t != [] && NoSpace(t)
    requires rest == [] || IsSpace(rest[0])
    ensures Split(t + rest) == [t] + Split(rest)
  {
    var s := t + rest;
    TokenLengthOfToken(t, rest);
    assert s[..|t|] == t;
    assert s[|t|..] == rest;
  }

  /** `split()` gives back the tokens of any line made of tokens and
      separators: the tokens are exactly the maximal whitespace-free runs. */
  lemma {:induction false} SplitInterleave(ws: seq<string>, toks: seq<string>)
    requires forall k :: 0 <= k < |toks| ==> toks[k] != [] && NoSpace(toks[k])
    requires Separators(ws, |toks|)
    ensures Split(Interleave(ws, toks)) == toks
    decreases |toks|
  {
    if toks == [] {
      SplitAllSpace(ws[0]);
    } else {
      var rest := Interleave(ws[1..], toks[1..]);
      assert Interleave(ws, toks) == ws[0] + (toks[0] + rest);
      SplitSkipSpace(ws[0], toks[0] + rest);
      assert rest == [] || IsSpace(rest[0]) by {
        if |toks| == 1 {
          assert rest == ws[1];
        } else {
          InterleaveStarts(ws[1..], toks[1..]);
          assert rest[0] == rest[..|ws[1]|][0];
        }
      }
      SplitTokenThen(toks[0], rest);
      SplitInterleave(ws[1..], toks[1..]);
      assert [toks[0]] + toks[1..] == toks;
    }
  }

  /** Every line is its tokens with separators around them. */
  lemma {:induction false} SplitSeparators(s: string) returns (ws: seq<string>)
    ensures Separators(ws, |Split(s)|) && s == Interleave(ws, Split(s))
    decreases |s|
  {
    if s == [] {
      ws := [[]];
    } else if IsSpace(s[0]) {
      var ws' := SplitSeparators(s[1..]);
      ws := ws'[0 := [s[0]] + ws'[0]];
      AllSpaceAppend([s[0]], ws'[0]);
      InterleavePrepend([s[0]], ws', Split(s[1..]));
      assert [s[0]] + s[1..] == s;
    } else {
      var n := TokenLength(s);
      var t, rest := s[..n], s[n..];
      var r := Split(rest);
      var ws' := SplitSeparators(rest);
      ws := [[]] + ws';
      assert Split(s) == [t] + r;
      assert ([t] + r)[1..] == r;
      assert ws[1..] == ws';
      assert Interleave(ws, [t] + r) == t + Interleave(ws', r);
      assert t + rest == s;
      if r != [] {
        LeadingSeparator(ws', r);
      }
    }
  }

  /** `s.split()` splits `s` at its whitespace runs: some separators put the
      tokens back together into `s`. */
  lemma SplitSpec(s: string)
    ensures exists ws :: Separators(ws, |Split(s)|) && s == Interleave(ws, Split(s))
  {
    var ws := SplitSeparators(s);
  }

  function DigitChar(d: nat): (c: char)
    requires d < 10
  {
    ('0' as int + d) as char
  }

  function DigitValue(c: char): nat {
    if '0' <= c <= '9' then (c as int - '0' as int) as nat else 0
  }

  /** Decimal digits of `n`, most significant first, no leading zero. */
  function Digits(n: nat): (s: string)
    ensures s != [] && forall i :: 0 <= i < |s| ==> '0' <= s[i] <= '9'
    ensures |s| > 1 ==> s[0] != '0'
    decreases n
  {
    if n < 10 then [DigitChar(n)] else Digits(n / 10) + [DigitChar(n % 10)]
  }

  /** The value of a string of decimal digits. */
  function DecimalValue(s: string): nat
    decreases |s|
  {
    if s == [] then 0 else 10 * DecimalValue(s[..|s| - 1]) + DigitValue(s[|s| - 1])
  }

  /** Python's `str(i)` for an `int`: an optional minus sign, then digits. */
  function IntToString(i: int): (s: string)
    ensures s != [] && NoSpace(s)
  {
    if i < 0 then "-" + Digits(-i) else Digits(i)
  }

  /** Reading back what `str` wrote for an `int`. */
  function ReadInt(s: string): int {
    if s != [] && s[0] == '-' then -(DecimalValue(s[1..]) as int) else DecimalValue(s)
  }

  lemma {:induction false} DecimalValueDigits(n: nat)
    ensures DecimalValue(Digits(n)) == n
    decreases n
  {
    if n >= 10 {
      DecimalValueDigits(n / 10);
      var s := Digits(n);
      assert s[..|s| - 1] == Digits(n / 10);
    }
  }

  /** `str` of an `int` reads back to the same `int`. */
  lemma ReadIntToString(i: int)
    ensures ReadInt(IntToString(i)) == i
  {
    var s := IntToString(i);
    if i < 0 {
      DecimalValueDigits(-i);
      assert s == "-" + Digits(-i);
      assert s[1..] == Digits(-i);
    } else {
      DecimalValueDigits(i);
      assert s == Digits(i);
      assert s[0] != '-';
    }
  }
}
