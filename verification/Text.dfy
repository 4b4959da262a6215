/** The string operations the program relies on: trimming, lower case, prefixes and suffixes. */
module Text {

  /** White space as Go's strings package sees it. */
  predicate IsSpace(c: char) {
    || c == ' ' || '\t' <= c <= '\r' || c == '\U{85}' || c == '\U{A0}' || c == '\U{1680}'
    || '\U{2000}' <= c <= '\U{200A}' || c == '\U{2028}' || c == '\U{2029}' || c == '\U{202F}'
    || c == '\U{205F}' || c == '\U{3000}'
  }

  /** White space by code point: the controls from tab to carriage return, the space, and the spaces
      and separators beyond ASCII. */
  lemma SpacesAre(c: char)
    ensures IsSpace(c) <==>
              || 9 <= c as int <= 13 || c as int == 32 || c as int == 0x85 || c as int == 0xA0 || c as int == 0x1680
              || 0x2000 <= c as int <= 0x200A || c as int == 0x2028 || c as int == 0x2029 || c as int == 0x202F
              || c as int == 0x205F || c as int == 0x3000
  {
  }

  function TrimLeft(s: string): string {
    if s != [] && IsSpace(s[0]) then TrimLeft(s[1..]) else s
  }

  function TrimRight(s: string): string {
    if s != [] && IsSpace(s[|s| - 1]) then TrimRight(s[..|s| - 1]) else s
  }

  function TrimSpace(s: string): string {
    TrimRight(TrimLeft(s))
  }

  /** No white space at either end. */
  predicate Trimmed(s: string) {
    s == [] || (!IsSpace(s[0]) && !IsSpace(s[|s| - 1]))
  }

  lemma {:induction false} TrimLeftStarts(s: string)
    ensures TrimLeft(s) == [] || !IsSpace(TrimLeft(s)[0])
    ensures forall c :: c in TrimLeft(s) ==> c in s
  {
    if s != [] && IsSpace(s[0]) {
      TrimLeftStarts(s[1..]);
    }
  }

  lemma {:induction false} TrimRightEnds(s: string)
    ensures TrimRight(s) <= s
    ensures TrimRight(s) == [] || !IsSpace(TrimRight(s)[|TrimRight(s)| - 1])
  {
    if s != [] && IsSpace(s[|s| - 1]) {
      TrimRightEnds(s[..|s| - 1]);
    }
  }

  lemma TrimSpaceTrims(s: string)
    ensures Trimmed(TrimSpace(s))
    ensures forall c :: c in TrimSpace(s) ==> c in s
    ensures Trimmed(s) ==> TrimSpace(s) == s
  {
    TrimLeftStarts(s);
    TrimRightEnds(TrimLeft(s));
  }

  /** Lower case, exact on ASCII and on the two other characters whose lower case is ASCII. */
  function LowerChar(c: char): char {
    if 'A' <= c <= 'Z' then c + ' '
    else if c == '\U{130}' then 'i'
    else if c == '\U{212A}' then 'k'
    else c
  }

  function ToLower(s: string): string {
    seq(|s|, i requires 0 <= i < |s| => LowerChar(s[i]))
  }

  predicate HasPrefix(s: string, p: string) {
    |p| <= |s| && s[..|p|] == p
  }

  predicate HasSuffix(s: string, p: string) {
    |p| <= |s| && s[|s| - |p|..] == p
  }

  function TrimSuffix(s: string, p: string): string {
    if HasSuffix(s, p) then s[..|s| - |p|] else s
  }

  // ---- what these operations mean -----------------------------------------------------------

  ghost predicate AllSpace(s: string) {
    forall i :: 0 <= i < |s| ==> IsSpace(s[i])
  }

  /** `s` is `t` with white space around it. */
  ghost predicate Padded(s: string, t: string) {
    exists pre, post :: AllSpace(pre) && AllSpace(post) && s == pre + t + post
  }

  lemma SpaceBefore(c: char, s: string)
    requires IsSpace(c) && AllSpace(s)
    ensures AllSpace([c] + s)
  {
    hide IsSpace;
  }

  lemma {:induction false} TrimLeftCuts(s: string) returns (pre: string)
    ensures AllSpace(pre) && s == pre + TrimLeft(s)
  {
    if s != [] && IsSpace(s[0]) {
      var rest := TrimLeftCuts(s[1..]);
      pre := [s[0]] + rest;
      SpaceBefore(s[0], rest);
      var t := TrimLeft(s[1..]);
      hide TrimLeft, AllSpace, IsSpace;
      assert s == [s[0]] + s[1..] == [s[0]] + (rest + t) == pre + t;
    } else {
      pre := [];
    }
  }

  lemma SpaceAfter(s: string, c: char)
    requires IsSpace(c) && AllSpace(s)
    ensures AllSpace(s + [c])
  {
    hide IsSpace;
  }

  lemma {:induction false} TrimRightCuts(s: string) returns (post: string)
    ensures AllSpace(post) && s == TrimRight(s) + post
  {
    if s != [] && IsSpace(s[|s| - 1]) {
      var rest := TrimRightCuts(s[..|s| - 1]);
      post := rest + [s[|s| - 1]];
      SpaceAfter(rest, s[|s| - 1]);
      var t := TrimRight(s[..|s| - 1]);
      hide TrimRight, AllSpace, IsSpace;
      assert s == s[..|s| - 1] + [s[|s| - 1]] == (t + rest) + [s[|s| - 1]] == t + post;
    } else {
      post := [];
    }
  }

  lemma {:induction false} TrimLeftSkips(pre: string, s: string)
    requires AllSpace(pre)
    ensures TrimLeft(pre + s) == TrimLeft(s)
  {
    if pre == [] {
      assert pre + s == s;
    } else {
      assert (pre + s)[1..] == pre[1..] + s && (pre + s)[0] == pre[0];
      TrimLeftSkips(pre[1..], s);
    }
  }

  lemma {:induction false} TrimRightSkips(s: string, post: string)
    requires AllSpace(post)
    ensures TrimRight(s + post) == TrimRight(s)
  {
    if post == [] {
      assert s + post == s;
    } else {
      var init := post[..|post| - 1];
      assert (s + post)[..|s + post| - 1] == s + init && (s + post)[|s + post| - 1] == post[|post| - 1];
      TrimRightSkips(s, init);
    }
  }

  /** Trimming takes away exactly the white space on both sides. */
  lemma TrimSpaceIff(s: string, t: string)
    ensures TrimSpace(s) == t <==> Trimmed(t) && Padded(s, t)
  {
    if TrimSpace(s) == t {
      TrimSpaceTrims(s);
      var pre := TrimLeftCuts(s);
      var post := TrimRightCuts(TrimLeft(s));
      assert s == pre + t + post;
    }
    if Trimmed(t) && Padded(s, t) {
      var pre, post :| AllSpace(pre) && AllSpace(post) && s == pre + t + post;
      assert s == pre + (t + post);
      TrimLeftSkips(pre, t + post);
      if t == [] {
        assert t + post == post + [];
        TrimLeftSkips(post, []);
      } else {
        TrimRightSkips(t, post);
      }
    }
  }

  lemma BlankIff(s: string)
    ensures TrimSpace(s) == [] <==> AllSpace(s)
  {
    TrimSpaceIff(s, []);
    if Padded(s, []) {
      var pre, post :| AllSpace(pre) && AllSpace(post) && s == pre + [] + post;
      assert s == pre + post;
    }
    if AllSpace(s) {
      var none: string := [];
      assert AllSpace(none) && s == s + [] + none;
    }
  }

  /** `l` is `c` in lower case. */
  predicate InLower(c: char, l: char) {
    if 'A' <= c <= 'Z' then l as int == c as int + 32
    else if c == '\U{130}' then l == 'i'
    else if c == '\U{212A}' then l == 'k'
    else l == c
  }

  /** `s` spells `d`, up to case. */
  ghost predicate Spells(s: string, d: string) {
    |s| == |d| && forall i :: 0 <= i < |s| ==> InLower(s[i], d[i])
  }

  lemma ToLowerIff(s: string, d: string)
    ensures ToLower(s) == d <==> Spells(s, d)
  {
    forall i | 0 <= i < |s| ensures InLower(s[i], ToLower(s)[i]) {
      assert ToLower(s)[i] == LowerChar(s[i]);
    }
    if Spells(s, d) {
      forall i | 0 <= i < |s| ensures ToLower(s)[i] == d[i] {
      }
    }
  }

  lemma LowerKeepsSpace(s: string)
    ensures AllSpace(ToLower(s)) <==> AllSpace(s)
    ensures Trimmed(ToLower(s)) <==> Trimmed(s)
  {
    assert forall i :: 0 <= i < |s| ==> (IsSpace(ToLower(s)[i]) <==> IsSpace(s[i]));
  }

  lemma LowerConcat(x: string, y: string)
    ensures ToLower(x + y) == ToLower(x) + ToLower(y)
  {
  }

  /** `s` is some spelling of `d`, up to case and white space around it. */
  ghost predicate Writes(s: string, d: string) {
    exists pre, mid, post :: AllSpace(pre) && AllSpace(post) && Trimmed(mid) && s == pre + mid + post && Spells(mid, d)
  }

  lemma LowerThenTrim(s: string)
    ensures TrimSpace(ToLower(s)) == ToLower(TrimSpace(s))
  {
    var t := TrimSpace(s);
    TrimSpaceIff(s, t);
    var pre, post :| AllSpace(pre) && AllSpace(post) && s == pre + t + post;
    LowerConcat(pre + t, post);
    LowerConcat(pre, t);
    LowerKeepsSpace(pre);
    LowerKeepsSpace(post);
    LowerKeepsSpace(t);
    assert ToLower(s) == ToLower(pre) + ToLower(t) + ToLower(post);
    TrimSpaceIff(ToLower(s), ToLower(t));
  }

  /** Trimming and lower case, in either order, give `d` exactly for what writes `d`. */
  lemma WritesIff(s: string, d: string)
    ensures ToLower(TrimSpace(s)) == d <==> Writes(s, d)
    ensures TrimSpace(ToLower(s)) == d <==> Writes(s, d)
  {
    LowerThenTrim(s);
    var t := TrimSpace(s);
    TrimSpaceIff(s, t);
    ToLowerIff(t, d);
    if Writes(s, d) {
      var pre, mid, post :| AllSpace(pre) && AllSpace(post) && Trimmed(mid) && s == pre + mid + post && Spells(mid, d);
      TrimSpaceIff(s, mid);
    }
  }

  lemma TrimSuffixIff(s: string, p: string, d: string)
    requires p != []
    ensures TrimSuffix(s, p) == d <==> s == d + p || (s == d && !HasSuffix(d, p))
  {
    if HasSuffix(s, p) {
      assert s == s[..|s| - |p|] + p;
    }
    if s == d + p {
      assert s[|s| - |p|..] == p && s[..|s| - |p|] == d;
    }
  }
}
