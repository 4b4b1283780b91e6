/**
 The string operations the dataset code uses from Python's `str`:
 `strip()` (on every vocabulary line) and `split()` with no argument (to cut
 every training line into tokens), both over Python's whitespace class.
 */
module Text {

  /** The whitespace that `strip()` and `split()` remove: the characters for
      which Python's `str.isspace` holds, i.e. the code points whose
      bidirectional class is WS, B or S, or whose category is Zs. */
  predicate IsSpace(c: char)
  {
    var n := c as int;
    (9 <= n <= 13) || (28 <= n <= 32) || n == 0x85 || n == 0xA0 || n == 0x1680
    || (0x2000 <= n <= 0x200A) || n == 0x2028 || n == 0x2029 || n == 0x202F
    || n == 0x205F || n == 0x3000
  }

  predicate AllSpace(s: string)
  {
    forall i :: 0 <= i < |s| ==> IsSpace(s[i])
  }

  /** A token as `split()` produces it: not empty, no whitespace in it. */
  predicate IsToken(t: string)
  {
    t != [] && forall i :: 0 <= i < |t| ==> !IsSpace(t[i])
  }

  /** `s.lstrip()`: drops the leading whitespace and nothing else. */
  function TrimLeft(s: string): (r: string)
    ensures |r| <= |s| && r == s[|s| - |r|..]
    ensures forall i :: 0 <= i < |s| - |r| ==> IsSpace(s[i])
    ensures r == [] || !IsSpace(r[0])
    decreases |s|
  {
    if s != [] && IsSpace(s[0]) then TrimLeft(s[1..]) else s
  }

  /** `s.rstrip()`: drops the trailing whitespace and nothing else. */
  function TrimRight(s: string): (r: string)
    ensures |r| <= |s| && r == s[..|r|]
    ensures forall i :: |r| <= i < |s| ==> IsSpace(s[i])
    ensures r == [] || !IsSpace(r[|r| - 1])
    decreases |s|
  {
    if s != [] && IsSpace(s[|s| - 1]) then TrimRight(s[..|s| - 1]) else s
  }

  /** `s.strip()`: `s` without its leading and trailing whitespace
      (`StripPadded` below states exactly what is left). */
  function Strip(s: string): (r: string)
    ensures |r| <= |s|
    ensures r == [] || (!IsSpace(r[0]) && !IsSpace(r[|r| - 1]))
    ensures AllSpace(s) ==> r == []
  {
    TrimRight(TrimLeft(s))
  }

  lemma {:induction false} TrimLeftPadded(pad: string, w: string)
    requires AllSpace(pad)
    requires w == [] || !IsSpace(w[0])
    ensures TrimLeft(pad + w) == w
    decreases |pad|
  {
    if pad != [] {
      assert (pad + w)[1..] == pad[1..] + w;
      TrimLeftPadded(pad[1..], w);
    }
  }

  lemma {:induction false} TrimRightPadded(w: string, pad: string)
    requires AllSpace(pad)
    requires w == [] || !IsSpace(w[|w| - 1])
    ensures TrimRight(w + pad) == w
    decreases |pad|
  {
    if pad != [] {
      assert (w + pad)[..|w + pad| - 1] == w + pad[..|pad| - 1];
      TrimRightPadded(w, pad[..|pad| - 1]);
    }
  }

  /** A vocabulary line whose word is surrounded by whitespace (its newline
      included) strips back to exactly that word. */
  lemma StripPadded(pre: string, w: string, post: string)
    requires AllSpace(pre) && AllSpace(post)
    requires w != [] && !IsSpace(w[0]) && !IsSpace(w[|w| - 1])
    ensures Strip(pre + w + post) == w
  {
    assert pre + w + post == pre + (w + post);
    TrimLeftPadded(pre, w + post);
    TrimRightPadded(w, post);
  }

  /** The index of the first whitespace character of `s`, or `|s|` if none. */
  function WordEnd(s: string): (k: nat)
    ensures k <= |s|
    ensures forall i :: 0 <= i < k ==> !IsSpace(s[i])
    ensures k == |s| || IsSpace(s[k])
    decreases |s|
  {
    if s == [] || IsSpace(s[0]) then 0 else 1 + WordEnd(s[1..])
  }

  /** `s.split()`: the maximal runs of non-whitespace characters of `s`, in
      order (`SplitPadded` states which tokens these are). */
  function Split(s: string): (r: seq<string>)
    ensures forall i :: 0 <= i < |r| ==> IsToken(r[i])
    ensures r == [] <==> AllSpace(s)
    decreases |s|
  {
    if s == [] then []
    else if IsSpace(s[0]) then Split(s[1..])
    else
      var k := WordEnd(s);
      [s[..k]] + Split(s[k..])
  }

  /** `[i for seq in lines for i in seq.split()]`: all tokens of all lines, in order. */
  function Tokens(lines: seq<string>): (r: seq<string>)
    ensures forall i :: 0 <= i < |r| ==> IsToken(r[i])
    decreases |lines|
  {
    if lines == [] then [] else Split(lines[0]) + Tokens(lines[1..])
  }

  /** The training-file layout: every token followed by one space. */
  function Join(ts: seq<string>): string
    decreases |ts|
  {
    if ts == [] then [] else ts[0] + " " + Join(ts[1..])
  }

  lemma {:induction false} WordEndOfToken(t: string, rest: string)
    requires IsToken(t)
    requires rest == [] || IsSpace(rest[0])
    ensures WordEnd(t + rest) == |t|
    decreases |t|
  {
    if |t| > 1 {
      assert (t + rest)[1..] == t[1..] + rest;
      WordEndOfToken(t[1..], rest);
    } else {
      assert (t + rest)[1..] == rest;
    }
  }

  /** Splitting text laid out as tokens each followed by a space gives the tokens back. */
  lemma {:induction false} SplitJoin(ts: seq<string>)
    requires forall i :: 0 <= i < |ts| ==> IsToken(ts[i])
    ensures Split(Join(ts)) == ts
    decreases |ts|
  {
    if ts != [] {
      var t, rest := ts[0], Join(ts[1..]);
      assert Join(ts) == [] + t + (" " + rest);
      SplitPadded([], t, " " + rest);
      assert (" " + rest)[1..] == rest;
      SplitJoin(ts[1..]);
    }
  }

  /** `split()` skips leading whitespace and ends a token at the next
      whitespace: a line made of padding, a token and a rest that is empty or
      starts with whitespace yields that token, then the tokens of the rest. */
  lemma {:induction false} SplitPadded(pre: string, w: string, rest: string)
    requires AllSpace(pre) && IsToken(w)
    requires rest == [] || IsSpace(rest[0])
    ensures Split(pre + w + rest) == [w] + Split(rest)
    decreases |pre|
  {
    if pre != [] {
      assert (pre + w + rest)[1..] == pre[1..] + w + rest;
      SplitPadded(pre[1..], w, rest);
    } else {
      assert pre + w + rest == w + rest;
      WordEndOfToken(w, rest);
      assert (w + rest)[..|w|] == w;
      assert (w + rest)[|w|..] == rest;
    }
  }

  lemma {:induction false} WordEndAppend(a: string, b: string)
    requires WordEnd(a) < |a|
    ensures WordEnd(a + b) == WordEnd(a)
    decreases |a|
  {
    if !IsSpace(a[0]) {
      assert (a + b)[1..] == a[1..] + b;
      WordEndAppend(a[1..], b);
    }
  }

  /** Text cut right after a whitespace character splits as its two parts do. */
  lemma {:induction false} SplitAppend(a: string, b: string)
    requires a == [] || IsSpace(a[|a| - 1])
    ensures Split(a + b) == Split(a) + Split(b)
    decreases |a|
  {
    if a == [] {
      assert a + b == b;
    } else if IsSpace(a[0]) {
      assert (a + b)[1..] == a[1..] + b;
      SplitAppend(a[1..], b);
    } else {
      var k := WordEnd(a);
      WordEndAppend(a, b);
      assert (a + b)[..k] == a[..k];
      assert (a + b)[k..] == a[k..] + b;
      SplitAppend(a[k..], b);
    }
  }

  /** A file's text: its lines laid end to end. */
  function Concat(lines: seq<string>): string
    decreases |lines|
  {
    if lines == [] then [] else lines[0] + Concat(lines[1..])
  }

  /** Lines as `readlines()` returns them: every line but the last ends with
      its newline, which is whitespace. */
  predicate LinesEnded(lines: seq<string>)
  {
    forall i :: 0 <= i < |lines| - 1 ==> lines[i] != [] && IsSpace(lines[i][|lines[i]| - 1])
  }

  /** Splitting line by line and joining the results is splitting the whole
      file: the tokens of all lines, in file order. */
  lemma {:induction false} TokensOfText(lines: seq<string>)
    requires LinesEnded(lines)
    ensures Tokens(lines) == Split(Concat(lines))
    decreases |lines|
  {
    if lines != [] {
      var tail := lines[1..];
      assert LinesEnded(tail) by {
        forall i | 0 <= i < |tail| - 1
          ensures tail[i] != [] && IsSpace(tail[i][|tail[i]| - 1])
        {
          assert tail[i] == lines[i + 1];
        }
      }
      TokensOfText(tail);
      if tail == [] {
        assert Concat(lines) == lines[0];
        assert Tokens(lines) == Split(lines[0]);
      } else {
        SplitAppend(lines[0], Concat(tail));
      }
    }
  }

  /** The tokens of two runs of lines are the tokens of the first, then those of the second. */
  lemma {:induction false} TokensAppend(a: seq<string>, b: seq<string>)
    ensures Tokens(a + b) == Tokens(a) + Tokens(b)
    decreases |a|
  {
    if a == [] {
      assert a + b == b;
    } else {
      assert (a + b)[1..] == a[1..] + b;
      TokensAppend(a[1..], b);
    }
  }
}
