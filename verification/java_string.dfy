/** The `java.lang.String` operations the parser relies on, written out:
    `trim()`, `startsWith`, and `split` with a one-character delimiter. */
module JavaString {
  import opened Seqs

  /** A character `String.trim()` removes: any code point up to U+0020. */
  predicate IsBlank(c: char) {
    c <= ' '
  }

  predicate AllBlank(s: string) {
    forall k :: 0 <= k < |s| ==> IsBlank(s[k])
  }

  /** Neither end of `s` is blank: `trim()` leaves it as it is. */
  predicate IsTrimmed(s: string) {
    s == [] || (!IsBlank(s[0]) && !IsBlank(s[|s| - 1]))
  }

  /** `s` has `pat` starting at index `i`. */
  predicate StartsAt(s: string, i: nat, pat: string) {
    i + |pat| <= |s| && s[i..i + |pat|] == pat
  }

  /** `s.startsWith(prefix)`. */
  predicate StartsWith(s: string, prefix: string) {
    prefix <= s
  }

  /** `s` ends with `suffix`. */
  predicate EndsWith(s: string, suffix: string) {
    |suffix| <= |s| && s[|s| - |suffix|..] == suffix
  }

  function LeadingBlanks(s: string): (n: nat)
    ensures n <= |s|
    ensures AllBlank(s[..n])
    ensures n < |s| ==> !IsBlank(s[n])
  {
    if s == [] || !IsBlank(s[0]) then 0
    else
      var n := 1 + LeadingBlanks(s[1..]);
      assert forall k :: 1 <= k < n ==> s[k] == s[1..][k - 1];
      n
  }

  function TrailingBlanks(s: string): (n: nat)
    ensures n <= |s|
    ensures AllBlank(s[|s| - n..])
    ensures n < |s| ==> !IsBlank(s[|s| - n - 1])
  {
    if s == [] || !IsBlank(s[|s| - 1]) then 0
    else
      var init := s[..|s| - 1];
      var n := 1 + TrailingBlanks(init);
      assert s[|s| - n..] == init[|init| - (n - 1)..] + [s[|s| - 1]];
      n
  }

  /** `String.trim()`: the blanks at both ends are dropped, nothing else. */
  function Trim(s: string): (r: string)
    ensures IsTrimmed(r)
    ensures exists i :: 0 <= i <= |s| - |r| && r == s[i..i + |r|]
                        && AllBlank(s[..i]) && AllBlank(s[i + |r|..])
    ensures forall c :: c in r ==> c in s
  {
    var st := LeadingBlanks(s);
    var rest := s[st..];
    var n := |rest| - TrailingBlanks(rest);
    assert s[st + n..] == rest[n..];
    assert n > 0 ==> s[st + n - 1] == rest[n - 1];
    TrimSlice(s, st, n);
    s[st..st + n]
  }

  /** The slice between blank ends is a trimmed, contiguous part of `s`. */
  lemma TrimSlice(s: string, st: nat, n: nat)
    requires st + n <= |s|
    requires AllBlank(s[..st]) && AllBlank(s[st + n..])
    requires n > 0 ==> !IsBlank(s[st]) && !IsBlank(s[st + n - 1])
    ensures IsTrimmed(s[st..st + n])
    ensures exists i :: 0 <= i <= |s| - n && s[st..st + n] == s[i..i + n]
                        && AllBlank(s[..i]) && AllBlank(s[i + n..])
    ensures forall c :: c in s[st..st + n] ==> c in s
  {
    var r := s[st..st + n];
    assert forall k :: 0 <= k < n ==> r[k] == s[st + k];
  }

  /** Trimming a trimmed string changes nothing. */
  lemma TrimTrimmed(s: string)
    requires IsTrimmed(s)
    ensures Trim(s) == s
  {
    if s != [] {
      assert LeadingBlanks(s) == 0;
      assert TrailingBlanks(s) == 0;
    }
  }

  /** `trim()` is characterised by its result: whatever blank padding
      surrounds a trimmed core, trimming yields exactly that core. */
  lemma TrimOfPadded(a: string, m: string, b: string)
    requires AllBlank(a) && AllBlank(b) && IsTrimmed(m)
    ensures Trim(a + m + b) == m
  {
    var s := a + m + b;
    if m == [] {
      assert AllBlank(s) by {
        forall k | 0 <= k < |s| ensures IsBlank(s[k]) {
          if k < |a| { assert s[k] == a[k]; } else { assert s[k] == b[k - |a|]; }
        }
      }
      assert LeadingBlanks(s) == |s|;
    } else {
      LeadingOfPadded(a, m + b);
      assert s == a + (m + b) && s[|a|..] == m + b;
      TrailingOfPadded(m, b);
      assert (m + b)[..|m|] == m;
    }
  }

  /** Blanks in front of a non-blank character are exactly the leading ones. */
  lemma {:induction false} LeadingOfPadded(a: string, r: string)
    requires AllBlank(a) && r != [] && !IsBlank(r[0])
    ensures LeadingBlanks(a + r) == |a|
    decreases |a|
  {
    var s := a + r;
    if a == [] {
      assert s == r;
    } else {
      assert s[0] == a[0];
      assert s[1..] == a[1..] + r;
      LeadingOfPadded(a[1..], r);
    }
  }

  /** Blanks after a non-blank character are exactly the trailing ones. */
  lemma {:induction false} TrailingOfPadded(m: string, b: string)
    requires AllBlank(b) && m != [] && !IsBlank(m[|m| - 1])
    ensures TrailingBlanks(m + b) == |b|
    decreases |b|
  {
    var s := m + b;
    if b == [] {
      assert s == m;
    } else {
      var init := b[..|b| - 1];
      assert s[|s| - 1] == b[|b| - 1];
      assert s[..|s| - 1] == m + init;
      TrailingOfPadded(m, init);
    }
  }

  /** Every piece of `s` between occurrences of `d`, including the empty ones
      at either end: `d` itself never occurs in a piece. */
  function Tokens(s: string, d: char): (r: seq<string>)
    ensures |r| >= 1
    ensures forall t :: t in r ==> d !in t
  {
    if s == [] then [[]]
    else
      var rest := Tokens(s[1..], d);
      if s[0] == d then [[]] + rest
      else
        assert forall t :: t in rest[1..] ==> t in rest;
        [[s[0]] + rest[0]] + rest[1..]
  }

  /** The tokens joined back together with `d` between them. */
  function Join(ts: seq<string>, d: char): string
    requires |ts| >= 1
  {
    if |ts| == 1 then ts[0] else ts[0] + [d] + Join(ts[1..], d)
  }

  /** Splitting and joining again gives back the original string. */
  lemma {:induction false} JoinTokens(s: string, d: char)
    ensures Join(Tokens(s, d), d) == s
  {
    if s != [] {
      var rest := Tokens(s[1..], d);
      JoinTokens(s[1..], d);
      if s[0] == d {
        assert Join([[]] + rest, d) == [] + [d] + Join(rest, d);
        assert s == [s[0]] + s[1..];
      } else if |rest| == 1 {
        assert s == [s[0]] + s[1..];
      } else {
        var ts := [[s[0]] + rest[0]] + rest[1..];
        assert ts[1..] == rest[1..];
        assert Join(rest, d) == rest[0] + [d] + Join(rest[1..], d);
        assert s == [s[0]] + s[1..];
      }
    }
  }

  /** Tokenizing around one more delimiter concatenates the tokens of both
      sides: the split is a homomorphism from `d`-joined text to token lists. */
  lemma {:induction false} TokensAppend(a: string, b: string, d: char)
    ensures Tokens(a + [d] + b, d) == Tokens(a, d) + Tokens(b, d)
    decreases |a|
  {
    if a == [] {
      assert a + [d] + b == [d] + b;
      assert ([d] + b)[1..] == b;
    } else {
      TokensAppend(a[1..], b, d);
      TokensAppendStep(a, b, d);
    }
  }

  /** The inductive step of `TokensAppend`: one character more in front of
      both sides. */
  lemma TokensAppendStep(a: string, b: string, d: char)
    requires a != []
    requires Tokens(a[1..] + [d] + b, d) == Tokens(a[1..], d) + Tokens(b, d)
    ensures Tokens(a + [d] + b, d) == Tokens(a, d) + Tokens(b, d)
  {
    var t := a[1..] + [d] + b;
    assert a + [d] + b == [a[0]] + t;
    assert a == [a[0]] + a[1..];
    TokensCons(a[0], t, d);
    TokensCons(a[0], a[1..], d);
    ConsTokens(a[0], d, Tokens(a[1..], d), Tokens(b, d));
  }

  /** One character more in front: a delimiter opens a new empty token,
      anything else extends the first one. */
  lemma TokensCons(c: char, t: string, d: char)
    ensures Tokens([c] + t, d) == ConsToken(c, d, Tokens(t, d))
  {
    assert ([c] + t)[0] == c && ([c] + t)[1..] == t;
  }

  /** The token list after putting `c` in front of the text `ts` came from. */
  function ConsToken(c: char, d: char, ts: seq<string>): seq<string>
    requires |ts| >= 1
  {
    if c == d then [[]] + ts else [[c] + ts[0]] + ts[1..]
  }

  /** Putting a character in front only touches the first token list. */
  lemma ConsTokens(c: char, d: char, ta: seq<string>, tb: seq<string>)
    requires |ta| >= 1
    ensures ConsToken(c, d, ta + tb) == ConsToken(c, d, ta) + tb
  {
    assert (ta + tb)[0] == ta[0] && (ta + tb)[1..] == ta[1..] + tb;
  }

  /** The pieces with the trailing empty ones removed. */
  function DropTrailingEmpty(ts: seq<string>): (r: seq<string>)
    ensures |r| <= |ts| && r == ts[..|r|]
    ensures forall k :: |r| <= k < |ts| ==> ts[k] == []
    ensures r != [] ==> r[|r| - 1] != []
  {
    if ts == [] || ts[|ts| - 1] != [] then ts
    else DropTrailingEmpty(ts[..|ts| - 1])
  }

  /** `s.split(d)` with limit 0 (both `String.split(",")` and
      `String.split("\\n")` take this form): the input itself when `d` does not
      occur, otherwise the pieces with trailing empty ones removed. */
  function Split(s: string, d: char): (r: seq<string>)
    ensures d !in s ==> r == [s]
    ensures |r| <= |Tokens(s, d)| && r == Tokens(s, d)[..|r|]
    ensures forall k :: |r| <= k < |Tokens(s, d)| ==> Tokens(s, d)[k] == []
    ensures d in s && r != [] ==> r[|r| - 1] != []
  {
    if d !in s then
      assert Tokens(s, d) == [s] by { NoDelimiterOneToken(s, d); }
      [s]
    else DropTrailingEmpty(Tokens(s, d))
  }

  lemma {:induction false} NoDelimiterOneToken(s: string, d: char)
    requires d !in s
    ensures Tokens(s, d) == [s]
  {
    if s != [] {
      assert d !in s[1..];
      NoDelimiterOneToken(s[1..], d);
      assert s[0] != d;
      assert s == [s[0]] + s[1..];
    }
  }

  /** A pattern found at `i` begins with the character at `i`. */
  lemma StartsAtHead(s: string, i: nat, pat: string)
    requires pat != []
    ensures StartsAt(s, i, pat) ==> s[i] == pat[0]
  {
    if StartsAt(s, i, pat) {
      assert s[i..i + |pat|][0] == s[i];
    }
  }

  /** A piece found inside a piece found in `s` is found in `s`. */
  lemma StartsAtWithin(s: string, i: nat, m: string, j: nat, y: string)
    requires StartsAt(s, i, m) && StartsAt(m, j, y)
    ensures StartsAt(s, i + j, y)
  {
    assert forall k :: 0 <= k < |y| ==> s[i + j + k] == m[j + k] == y[k];
    assert s[i + j..i + j + |y|] == y;
  }

  /** `b` occurs in `a + b + c` right after `a`. */
  lemma StartsAtMiddle(a: string, b: string, c: string)
    ensures StartsAt(a + b + c, |a|, b)
  {
    assert (a + b + c)[|a|..|a| + |b|] == b;
  }

  /** Rendering `i` of `xs` sits right after the renderings before it,
      whatever text surrounds the whole list. */
  lemma LocateRendered<T>(pre: string, xs: seq<T>, i: nat, render: T -> string, post: string)
    requires i < |xs|
    ensures StartsAt(pre + Flatten(xs, render) + post,
                     |pre| + |Flatten(xs[..i], render)|, render(xs[i]))
  {
    FlattenAt(xs, i, render);
    var a := Flatten(xs[..i], render);
    var b := render(xs[i]);
    var c := Flatten(xs[i + 1..], render);
    assert pre + Flatten(xs, render) + post == (pre + a) + b + (c + post);
    StartsAtMiddle(pre + a, b, c + post);
  }
}
