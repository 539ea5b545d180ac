/** `str.count` and `str.replace`, the only way a repair changes text, against
    what a repair means: renaming one identifier and touching nothing else. */
module TokenReplacement {

  predicate At(s: string, i: int, pattern: string) {
    0 <= i <= |s| - |pattern| && s[i..i + |pattern|] == pattern
  }

  ghost predicate Contains(s: string, pattern: string) {
    exists i :: At(s, i, pattern)
  }

  /** Leftmost, non-overlapping occurrences. */
  function Count(s: string, stale: string): nat
    requires stale != []
  {
    if |s| < |stale| then 0
    else if stale <= s then 1 + Count(s[|stale|..], stale)
    else Count(s[1..], stale)
  }

  function Replace(s: string, stale: string, repl: string): string
    requires stale != []
  {
    if |s| < |stale| then s
    else if stale <= s then repl + Replace(s[|stale|..], stale, repl)
    else [s[0]] + Replace(s[1..], stale, repl)
  }

  lemma Distribute(n: int, d: int)
    ensures (1 + n) * d == d + n * d
  {}

  lemma {:induction false} LengthLaw(s: string, stale: string, repl: string)
    requires stale != []
    ensures |Replace(s, stale, repl)| == |s| + Count(s, stale) * (|repl| - |stale|)
  {
    if |s| < |stale| {
    } else if stale <= s {
      LengthLaw(s[|stale|..], stale, repl);
      Distribute(Count(s[|stale|..], stale), |repl| - |stale|);
    } else {
      LengthLaw(s[1..], stale, repl);
    }
  }

  lemma {:induction false} CountZeroIffAbsent(s: string, stale: string)
    requires stale != []
    ensures Count(s, stale) == 0 <==> !Contains(s, stale)
  {
    if |s| < |stale| {
    } else if stale <= s {
      assert At(s, 0, stale);
    } else {
      CountZeroIffAbsent(s[1..], stale);
      if Contains(s, stale) {
        var i :| At(s, i, stale);
        assert i != 0;
        assert s[1..][i - 1..i - 1 + |stale|] == s[i..i + |stale|];
        assert At(s[1..], i - 1, stale);
      }
      if Contains(s[1..], stale) {
        var i :| At(s[1..], i, stale);
        assert s[1..][i..i + |stale|] == s[i + 1..i + 1 + |stale|];
        assert At(s, i + 1, stale);
      }
    }
  }

  lemma {:induction false} AbsentUnchanged(s: string, stale: string, repl: string)
    requires stale != [] && Count(s, stale) == 0
    ensures Replace(s, stale, repl) == s
  {
    if |s| >= |stale| { AbsentUnchanged(s[1..], stale, repl); }
  }

  lemma NonZeroProduct(n: nat, d: int)
    requires n > 0 && d != 0
    ensures n * d != 0
  {}

  /** The rewritten text is a different text exactly when something was found.
      Every hash comparison of a repair rests on this. */
  lemma ChangesIffOccurs(s: string, stale: string, repl: string)
    requires stale != [] && stale != repl
    ensures Replace(s, stale, repl) != s <==> Count(s, stale) > 0
  {
    if Count(s, stale) == 0 {
      AbsentUnchanged(s, stale, repl);
    } else if |stale| == |repl| {
      PresentChanged(s, stale, repl);
    } else {
      LengthLaw(s, stale, repl);
      NonZeroProduct(Count(s, stale), |repl| - |stale|);
    }
  }

  lemma {:induction false} PresentChanged(s: string, stale: string, repl: string)
    requires stale != [] && stale != repl && |stale| == |repl| && Count(s, stale) > 0
    ensures Replace(s, stale, repl) != s
  {
    if stale <= s {
      assert Replace(s, stale, repl)[..|stale|] == repl && s[..|stale|] == stale;
    } else {
      PresentChanged(s[1..], stale, repl);
      assert Replace(s, stale, repl)[1..] == Replace(s[1..], stale, repl);
    }
  }

  // ---- Identifiers -------------------------------------------------------

  ghost predicate Ident(c: char) {
    'a' <= c <= 'z' || 'A' <= c <= 'Z' || '0' <= c <= '9' || c == '_' || c == '.'
  }

  ghost predicate AllIdent(s: string) {
    forall i :: 0 <= i < |s| ==> Ident(s[i])
  }

  datatype Token = Word(text: string) | Gap(c: char)

  ghost function WordLength(s: string): (n: nat)
    ensures n <= |s| && AllIdent(s[..n]) && (n < |s| ==> !Ident(s[n]))
  {
    if s == [] || !Ident(s[0]) then 0
    else
      var n := 1 + WordLength(s[1..]);
      assert s[..n] == [s[0]] + s[1..][..n - 1];
      n
  }

  ghost function Tokens(s: string): seq<Token> {
    if s == [] then []
    else if Ident(s[0]) then
      var n := WordLength(s);
      [Word(s[..n])] + Tokens(s[n..])
    else [Gap(s[0])] + Tokens(s[1..])
  }

  /** What a repair means: every whole identifier `stale` becomes `repl`. */
  ghost function Rename(ts: seq<Token>, stale: string, repl: string): seq<Token> {
    if ts == [] then []
    else [if ts[0] == Word(stale) then Word(repl) else ts[0]] + Rename(ts[1..], stale, repl)
  }

  /** Every occurrence of `stale` stands alone as an identifier. */
  ghost predicate Delimited(s: string, stale: string) {
    forall i :: At(s, i, stale) ==>
      (i == 0 || !Ident(s[i - 1])) && (i + |stale| == |s| || !Ident(s[i + |stale|]))
  }

  ghost predicate Ended(r: string) {
    r == [] || !Ident(r[0])
  }

  lemma IdentOccurrence(s: string, i: int, stale: string)
    requires At(s, i, stale) && AllIdent(stale)
    ensures forall j :: i <= j < i + |stale| ==> Ident(s[j])
  {
    forall j | i <= j < i + |stale| ensures Ident(s[j]) {
      assert s[j] == s[i..i + |stale|][j - i] == stale[j - i];
    }
  }

  /** An identifier never runs over the end of the word it starts in. */
  lemma InsideWord(w: string, r: string, stale: string, i: int)
    requires Ended(r) && stale != [] && AllIdent(stale)
    requires At(w + r, i, stale) && i < |w|
    ensures At(w, i, stale)
  {
    var s := w + r;
    IdentOccurrence(s, i, stale);
    assert r != [] ==> s[|w|] == r[0];
    assert w[i..i + |stale|] == s[i..i + |stale|];
  }

  /** ... and never starts in what follows, unless it lies there entirely. */
  lemma AfterWord(w: string, r: string, stale: string, i: int)
    requires At(w + r, i, stale) && i >= |w|
    ensures At(r, i - |w|, stale)
  {
    assert r[i - |w|..i - |w| + |stale|] == (w + r)[i..i + |stale|];
  }

  lemma {:induction false} ReplaceSplits(w: string, r: string, stale: string, repl: string)
    requires AllIdent(w) && Ended(r) && stale != [] && AllIdent(stale)
    ensures Replace(w + r, stale, repl) == Replace(w, stale, repl) + Replace(r, stale, repl)
    decreases |w|, 1
  {
    var s := w + r;
    if w == [] {
      assert s == r;
    } else if stale <= s {
      InsideWord(w, r, stale, 0);
      assert stale <= w && s[|stale|..] == w[|stale|..] + r;
      ReplaceSplits(w[|stale|..], r, stale, repl);
      assert Replace(s, stale, repl) == repl + Replace(s[|stale|..], stale, repl);
      assert Replace(w, stale, repl) == repl + Replace(w[|stale|..], stale, repl);
    } else {
      SkipSplits(w, r, stale, repl);
    }
  }

  lemma {:induction false} SkipSplits(w: string, r: string, stale: string, repl: string)
    requires w != [] && AllIdent(w) && Ended(r) && stale != [] && AllIdent(stale) && !(stale <= w + r)
    ensures Replace(w + r, stale, repl) == Replace(w, stale, repl) + Replace(r, stale, repl)
    decreases |w|, 0
  {
    var s := w + r;
    assert stale <= w ==> stale <= s;
    if |s| < |stale| {
      ShortWord(w, stale, repl);
      ShortWord(r, stale, repl);
    } else {
      assert s[1..] == w[1..] + r;
      ReplaceSplits(w[1..], r, stale, repl);
      if |w| < |stale| {
        ShortWord(w[1..], stale, repl);
        ShortWord(w, stale, repl);
      }
      assert Replace(w, stale, repl) == [w[0]] + Replace(w[1..], stale, repl);
    }
  }

  lemma ShortWord(w: string, stale: string, repl: string)
    requires |w| < |stale|
    ensures Replace(w, stale, repl) == w
  {}

  lemma {:induction false} ReplacedWord(w: string, stale: string, repl: string)
    requires AllIdent(w) && stale != [] && repl != [] && AllIdent(repl)
    ensures AllIdent(Replace(w, stale, repl))
    ensures w != [] ==> Replace(w, stale, repl) != []
  {
    if |w| >= |stale| {
      ReplacedWord(if stale <= w then w[|stale|..] else w[1..], stale, repl);
    }
  }

  lemma WordToken(w: string, r: string)
    requires w != [] && AllIdent(w) && Ended(r)
    ensures Tokens(w + r) == [Word(w)] + Tokens(r)
  {
    var s := w + r;
    var n := WordLength(s);
    assert forall j :: 0 <= j < |w| ==> s[j] == w[j];
    assert forall j :: 0 <= j < n ==> s[j] == s[..n][j];
    assert r != [] ==> s[|w|] == r[0];
    assert s[..n] == w && s[n..] == r;
  }

  lemma EndedReplace(r: string, stale: string, repl: string)
    requires Ended(r) && stale != [] && AllIdent(stale)
    ensures Ended(Replace(r, stale, repl))
    ensures r != [] ==> Replace(r, stale, repl) == [r[0]] + Replace(r[1..], stale, repl)
  {
    assert stale[0] == stale[..1][0];
  }

  lemma WordAlone(w: string, stale: string, repl: string)
    requires stale != [] && stale != repl && w != []
    ensures Replace(w, stale, repl) == (if w == stale then repl else w) <==> w == stale || !Contains(w, stale)
  {
    ChangesIffOccurs(w, stale, repl);
    CountZeroIffAbsent(w, stale);
    if w == stale { assert w[|stale|..] == []; }
  }

  lemma DelimitedSplits(w: string, r: string, stale: string)
    requires w != [] && AllIdent(w) && Ended(r) && stale != [] && AllIdent(stale)
    ensures Delimited(w + r, stale) <==> (w == stale || !Contains(w, stale)) && Delimited(r, stale)
  {
    var s := w + r;
    if Delimited(s, stale) {
      if Contains(w, stale) {
        var i :| At(w, i, stale);
        assert s[i..i + |stale|] == w[i..i + |stale|];
        assert At(s, i, stale);
        assert forall j :: 0 <= j < |w| ==> s[j] == w[j];
        assert i == 0 && |stale| == |w|;
        assert w == stale;
      }
      forall i | At(r, i, stale)
        ensures (i == 0 || !Ident(r[i - 1])) && (i + |stale| == |r| || !Ident(r[i + |stale|]))
      {
        assert s[|w| + i..|w| + i + |stale|] == r[i..i + |stale|];
        assert At(s, |w| + i, stale);
      }
    }
    if (w == stale || !Contains(w, stale)) && Delimited(r, stale) {
      forall i | At(s, i, stale)
        ensures (i == 0 || !Ident(s[i - 1])) && (i + |stale| == |s| || !Ident(s[i + |stale|]))
      {
        IdentOccurrence(s, i, stale);
        assert r != [] ==> s[|w|] == r[0];
        if i >= |w| { AfterWord(w, r, stale, i); } else { InsideWord(w, r, stale, i); }
      }
    }
  }

  lemma GapDelimited(s: string, stale: string)
    requires s != [] && !Ident(s[0]) && stale != [] && AllIdent(stale)
    ensures Delimited(s, stale) <==> Delimited(s[1..], stale)
  {
    var r := s[1..];
    forall i | At(r, i, stale) ensures At(s, i + 1, stale) {
      assert s[i + 1..i + 1 + |stale|] == r[i..i + |stale|];
    }
    forall i | At(s, i, stale) ensures i > 0 && At(r, i - 1, stale) {
      IdentOccurrence(s, i, stale);
      assert r[i - 1..i - 1 + |stale|] == s[i..i + |stale|];
    }
    if Delimited(r, stale) {
      forall i | At(s, i, stale)
        ensures (i == 0 || !Ident(s[i - 1])) && (i + |stale| == |s| || !Ident(s[i + |stale|]))
      {
        assert At(r, i - 1, stale);
      }
    }
    if Delimited(s, stale) {
      forall i | At(r, i, stale)
        ensures (i == 0 || !Ident(r[i - 1])) && (i + |stale| == |r| || !Ident(r[i + |stale|]))
      {
        assert At(s, i + 1, stale);
      }
    }
  }

  /** The textual replacement is the identifier renaming exactly when every
      occurrence of the old identifier stands alone. */
  lemma {:induction false} ReplacementIsRenamingIffDelimited(s: string, stale: string, repl: string)
    requires stale != [] && repl != [] && stale != repl && AllIdent(stale) && AllIdent(repl)
    ensures Tokens(Replace(s, stale, repl)) == Rename(Tokens(s), stale, repl) <==> Delimited(s, stale)
    decreases |s|
  {
    if s == [] {
    } else if Ident(s[0]) {
      var n := WordLength(s);
      var w, r := s[..n], s[n..];
      assert s == w + r;
      ReplaceSplits(w, r, stale, repl);
      ReplacedWord(w, stale, repl);
      EndedReplace(r, stale, repl);
      WordToken(Replace(w, stale, repl), Replace(r, stale, repl));
      ReplacementIsRenamingIffDelimited(r, stale, repl);
      WordAlone(w, stale, repl);
      DelimitedSplits(w, r, stale);
      var lhs, rhs := Tokens(Replace(s, stale, repl)), Rename(Tokens(s), stale, repl);
      assert Tokens(s)[1..] == Tokens(r);
      assert lhs[0] == Word(Replace(w, stale, repl)) && lhs[1..] == Tokens(Replace(r, stale, repl));
      assert rhs[0] == Word(if w == stale then repl else w) && rhs[1..] == Rename(Tokens(r), stale, repl);
      assert lhs == rhs <==> lhs[0] == rhs[0] && lhs[1..] == rhs[1..];
    } else {
      EndedReplace(s, stale, repl);
      GapDelimited(s, stale);
      ReplacementIsRenamingIffDelimited(s[1..], stale, repl);
      var lhs, rhs := Tokens(Replace(s, stale, repl)), Rename(Tokens(s), stale, repl);
      assert Replace(s, stale, repl)[1..] == Replace(s[1..], stale, repl);
      assert Tokens(s)[1..] == Tokens(s[1..]);
      assert lhs == [Gap(s[0])] + Tokens(Replace(s[1..], stale, repl));
      assert rhs == [Gap(s[0])] + Rename(Tokens(s[1..]), stale, repl);
      assert lhs[1..] == Tokens(Replace(s[1..], stale, repl)) && rhs[1..] == Rename(Tokens(s[1..]), stale, repl);
    }
  }

  /** When every occurrence stands alone and the new identifier does not contain
      the old one, one pass leaves no occurrence behind. */
  lemma {:induction false} NothingLeft(s: string, stale: string, repl: string)
    requires stale != [] && repl != [] && AllIdent(stale) && AllIdent(repl)
    requires Delimited(s, stale) && !Contains(repl, stale)
    ensures Count(Replace(s, stale, repl), stale) == 0
    decreases |s|
  {
    if s == [] {
    } else if Ident(s[0]) {
      var n := WordLength(s);
      var w, r := s[..n], s[n..];
      assert s == w + r;
      ReplaceSplits(w, r, stale, repl);
      EndedReplace(r, stale, repl);
      DelimitedSplits(w, r, stale);
      NothingLeft(r, stale, repl);
      CountZeroIffAbsent(w, stale);
      if w == stale { assert w[|stale|..] == []; } else { AbsentUnchanged(w, stale, repl); }
      var w', r' := Replace(w, stale, repl), Replace(r, stale, repl);
      assert w' == if w == stale then repl else w;
      CountZeroIffAbsent(r', stale);
      ContainsSplits(w', r', stale);
      CountZeroIffAbsent(w' + r', stale);
    } else {
      EndedReplace(s, stale, repl);
      GapDelimited(s, stale);
      NothingLeft(s[1..], stale, repl);
      var t := Replace(s, stale, repl);
      assert t[1..] == Replace(s[1..], stale, repl);
      assert !(stale <= t);
    }
  }

  lemma ContainsSplits(w: string, r: string, stale: string)
    requires AllIdent(w) && Ended(r) && stale != [] && AllIdent(stale)
    requires !Contains(w, stale) && !Contains(r, stale)
    ensures !Contains(w + r, stale)
  {
    var s := w + r;
    if Contains(s, stale) {
      var i :| At(s, i, stale);
      if i >= |w| { AfterWord(w, r, stale, i); } else { InsideWord(w, r, stale, i); }
    }
  }

  /** A numbered duplicate is a prefix of a longer one: repairing
      `light.a_2` also rewrites `light.a_20`, which names another device. */
  lemma NumberedSuffixIsNotRenamed()
    ensures Replace("light.a_20", "light.a_2", "light.a") == "light.a0"
    ensures !Delimited("light.a_20", "light.a_2")
  {
    var s, stale := "light.a_20", "light.a_2";
    assert s[..|stale|] == stale && s[|stale|..] == "0";
    assert At(s, 0, stale);
    assert s[|stale|] == '0';
  }

  // ---- A numbered duplicate and its base ------------------------------------

  ghost predicate Digit(c: char) {
    '0' <= c <= '9'
  }

  /** `next` is `stale` without a numeric ending, both around the dot at `dot`. */
  ghost predicate BaseOf(stale: string, next: string, dot: nat) {
    dot < |next| < |stale| && next == stale[..|next|]
    && (forall i :: 0 <= i < |stale| ==> (stale[i] == '.' <==> i == dot))
    && (forall i :: 0 <= i < dot ==> !Digit(stale[i]))
    && Digit(stale[|stale| - 1])
  }

  /** Such an identifier never overlaps itself. */
  lemma NoOverlap(stale: string, next: string, dot: nat, k: nat)
    requires BaseOf(stale, next, dot) && 1 <= k < |stale|
    ensures stale[k..] != stale[..|stale| - k]
  {
    var n := |stale|;
    var i := if n - k > dot then dot else n - k - 1;
    assert stale[k..][i] == stale[k + i] != stale[i] == stale[..n - k][i];
  }

  /** What is left of the identifier cannot start where its base was just put. */
  lemma BaseHidesRest(stale: string, next: string, dot: nat, k: nat, r: string)
    requires BaseOf(stale, next, dot) && 1 <= k < |stale|
    ensures !(stale[k..] <= next + r)
  {
    var n, out := |stale|, next + r;
    var i := if k <= dot then dot - k else if n - k > dot then dot else n - k - 1;
    assert stale[k..][i] == stale[k + i] != stale[i] == next[i] == out[i];
  }

  /** Replacing does not change whether a text starts with the rest of the identifier. */
  lemma {:induction false} SameStart(x: string, stale: string, next: string, dot: nat, k: nat)
    requires BaseOf(stale, next, dot) && 1 <= k <= |stale|
    ensures stale[k..] <= Replace(x, stale, next) <==> stale[k..] <= x
    decreases |stale| - k
  {
    var n := |stale|;
    if k == n || |x| < n {
    } else if stale <= x {
      BaseHidesRest(stale, next, dot, k, Replace(x[n..], stale, next));
      NoOverlap(stale, next, dot, k);
      assert x[..n] == stale && x[..n - k] == stale[..n - k];
    } else {
      SameStart(x[1..], stale, next, dot, k + 1);
      var out := Replace(x, stale, next);
      assert out == [x[0]] + Replace(x[1..], stale, next);
      StartsStep(stale[k..], out);
      StartsStep(stale[k..], x);
      assert stale[k..][1..] == stale[k + 1..];
    }
  }

  lemma StartsStep(t: string, x: string)
    requires t != [] && x != []
    ensures t <= x <==> t[0] == x[0] && t[1..] <= x[1..]
  {
    assert t == [t[0]] + t[1..] && x == [x[0]] + x[1..];
  }

  /** Somewhere the identifier is followed by text that completes it again once it
      has been cut back to its base. */
  ghost predicate Rejoins(s: string, stale: string, next: string) {
    exists k :: RejoinsAt(s, stale, next, k)
  }

  ghost predicate RejoinsAt(s: string, stale: string, next: string, k: int) {
    1 <= k <= |next| && k <= |stale| && next[|next| - k..] == stale[..k] && Contains(s, stale + stale[k..])
  }

  lemma ContainsShift(s: string, pattern: string, shift: nat)
    requires shift <= |s| && Contains(s[shift..], pattern)
    ensures Contains(s, pattern)
  {
    var i :| At(s[shift..], i, pattern);
    assert s[shift + i..shift + i + |pattern|] == s[shift..][i..i + |pattern|];
    assert At(s, shift + i, pattern);
  }

  lemma ContainsLater(s: string, pattern: string, shift: nat, i: int)
    requires shift <= i && At(s, i, pattern)
    ensures At(s[shift..], i - shift, pattern) && Contains(s[shift..], pattern)
  {
    assert s[shift..][i - shift..i - shift + |pattern|] == s[i..i + |pattern|];
    assert At(s[shift..], i - shift, pattern);
  }

  lemma RejoinsShift(s: string, stale: string, next: string, shift: nat)
    requires shift <= |s| && Rejoins(s[shift..], stale, next)
    ensures Rejoins(s, stale, next)
  {
    var k :| RejoinsAt(s[shift..], stale, next, k);
    ContainsShift(s, stale + stale[k..], shift);
    assert RejoinsAt(s, stale, next, k);
  }

  /** One pass leaves an occurrence exactly when one joins up again. */
  lemma {:induction false} LeftIffRejoins(s: string, stale: string, next: string, dot: nat)
    requires BaseOf(stale, next, dot)
    ensures Contains(Replace(s, stale, next), stale) <==> Rejoins(s, stale, next)
    decreases |s|
  {
    if |s| < |stale| {
      TooShort(s, stale, next);
    } else if stale <= s {
      LeftIffRejoins(s[|stale|..], stale, next, dot);
      LeftAfterHit(s, stale, next, dot);
      RejoinsAfterHit(s, stale, next, dot);
    } else {
      LeftIffRejoins(s[1..], stale, next, dot);
      LeftAfterMiss(s, stale, next, dot);
    }
  }

  lemma TooShort(s: string, stale: string, next: string)
    requires |s| < |stale|
    ensures !Contains(s, stale) && !Rejoins(s, stale, next)
  {
    assert forall pattern, i :: |pattern| > |s| ==> !At(s, i, pattern);
    assert forall k :: 0 <= k <= |stale| ==> |stale + stale[k..]| > |s|;
  }

  lemma NextIsLater(s: string, stale: string, next: string, dot: nat, j: int)
    requires BaseOf(stale, next, dot) && stale <= s && j > 0 && At(s, j, stale)
    ensures j >= |stale|
  {
    if j < |stale| {
      var n := |stale|;
      assert stale[j..] == s[..n][j..] == s[j..n] == s[j..j + n][..n - j] == stale[..n - j];
      NoOverlap(stale, next, dot, j);
    }
  }

  lemma LeftAfterHit(s: string, stale: string, next: string, dot: nat)
    requires BaseOf(stale, next, dot) && stale <= s
    requires Contains(Replace(s[|stale|..], stale, next), stale) ==> Rejoins(s[|stale|..], stale, next)
    ensures Contains(Replace(s, stale, next), stale) ==> Rejoins(s, stale, next)
  {
    var n, rest := |stale|, s[|stale|..];
    var r := Replace(rest, stale, next);
    var out := next + r;
    assert Replace(s, stale, next) == out;
    if Contains(out, stale) {
      var i :| At(out, i, stale);
      if i >= |next| {
        assert out[|next|..] == r;
        ContainsLater(out, stale, |next|, i);
        RejoinsShift(s, stale, next, n);
      } else {
        var k := |next| - i;
        var found := out[i..i + n];
        assert found[..k] == next[i..] && found[k..] == r[..n - k];
        assert stale[k..] <= r;
        SameStart(rest, stale, next, dot, k);
        HitThenRest(s, stale, k);
        assert RejoinsAt(s, stale, next, k);
      }
    }
  }

  lemma HitThenRest(s: string, stale: string, k: nat)
    requires stale <= s && k <= |stale|
    ensures stale[k..] <= s[|stale|..] <==> At(s, 0, stale + stale[k..])
  {
    var both := stale + stale[k..];
    if stale[k..] <= s[|stale|..] {
      assert s == s[..|stale|] + s[|stale|..];
      assert s[..|both|] == both;
    }
    if At(s, 0, both) {
      assert s[0..|both|] == both;
      assert s[|stale|..][..|stale| - k] == both[|stale|..];
    }
  }

  lemma RejoinsAfterHit(s: string, stale: string, next: string, dot: nat)
    requires BaseOf(stale, next, dot) && stale <= s
    requires Rejoins(s[|stale|..], stale, next) ==> Contains(Replace(s[|stale|..], stale, next), stale)
    ensures Rejoins(s, stale, next) ==> Contains(Replace(s, stale, next), stale)
  {
    if Rejoins(s, stale, next) {
      var k :| RejoinsAt(s, stale, next, k);
      var both := stale + stale[k..];
      var j :| At(s, j, both);
      if j == 0 {
        RejoinsHere(s, stale, next, dot, k);
      } else {
        RejoinsFurther(s, stale, next, dot, k, j);
        ContainsShift(next + Replace(s[|stale|..], stale, next), stale, |next|);
      }
    }
  }

  lemma RejoinsHere(s: string, stale: string, next: string, dot: nat, k: nat)
    requires BaseOf(stale, next, dot) && stale <= s && RejoinsAt(s, stale, next, k) && At(s, 0, stale + stale[k..])
    ensures Contains(Replace(s, stale, next), stale)
  {
    var rest := s[|stale|..];
    var r := Replace(rest, stale, next);
    HitThenRest(s, stale, k);
    SameStart(rest, stale, next, dot, k);
    BorderMeets(stale, next, r, k);
  }

  lemma BorderMeets(stale: string, next: string, r: string, k: nat)
    requires 1 <= k <= |next| && k <= |stale| && next[|next| - k..] == stale[..k] && stale[k..] <= r
    ensures Contains(next + r, stale)
  {
    var i, n, out := |next| - k, |stale|, next + r;
    assert out[i..i + n] == next[i..] + r[..n - k];
    assert stale == stale[..k] + stale[k..];
    assert At(out, i, stale);
  }

  lemma RejoinsFurther(s: string, stale: string, next: string, dot: nat, k: nat, j: int)
    requires BaseOf(stale, next, dot) && stale <= s && RejoinsAt(s, stale, next, k)
    requires j > 0 && At(s, j, stale + stale[k..])
    ensures Rejoins(s[|stale|..], stale, next)
  {
    var both := stale + stale[k..];
    assert s[j..j + |stale|] == both[..|stale|] == stale;
    NextIsLater(s, stale, next, dot, j);
    ContainsLater(s, both, |stale|, j);
    assert RejoinsAt(s[|stale|..], stale, next, k);
  }

  lemma AtStart(s: string, pattern: string)
    ensures At(s, 0, pattern) <==> pattern <= s
  {}

  lemma LeftAfterMiss(s: string, stale: string, next: string, dot: nat)
    requires BaseOf(stale, next, dot) && |s| >= |stale| && !(stale <= s)
    requires Contains(Replace(s[1..], stale, next), stale) <==> Rejoins(s[1..], stale, next)
    ensures Contains(Replace(s, stale, next), stale) <==> Rejoins(s, stale, next)
  {
    var out := Replace(s, stale, next);
    assert out == [s[0]] + Replace(s[1..], stale, next) && out[1..] == Replace(s[1..], stale, next);
    if Contains(out, stale) {
      MissStaysMiss(s, stale, next, dot);
      TailContains(out, stale);
      RejoinsShift(s, stale, next, 1);
    }
    if Rejoins(s, stale, next) {
      var k :| RejoinsAt(s, stale, next, k);
      LongerStart(s, stale, stale[k..]);
      TailContains(s, stale + stale[k..]);
      assert RejoinsAt(s[1..], stale, next, k);
      ContainsShift(out, stale, 1);
    }
  }

  lemma MissStaysMiss(s: string, stale: string, next: string, dot: nat)
    requires BaseOf(stale, next, dot) && |s| >= |stale| && !(stale <= s)
    ensures !(stale <= Replace(s, stale, next))
  {
    var out := Replace(s, stale, next);
    assert out == [s[0]] + Replace(s[1..], stale, next);
    StartsStep(stale, out);
    StartsStep(stale, s);
    SameStart(s[1..], stale, next, dot, 1);
  }

  lemma LongerStart(s: string, start: string, rest: string)
    ensures start + rest <= s ==> start <= s
  {
    if start + rest <= s { assert s[..|start|] == (start + rest)[..|start|]; }
  }

  lemma TailContains(s: string, pattern: string)
    requires s != [] && Contains(s, pattern) && !(pattern <= s)
    ensures Contains(s[1..], pattern)
  {
    AtStart(s, pattern);
    var i :| At(s, i, pattern);
    ContainsLater(s, pattern, 1, i);
  }

  /** It takes an occurrence that does not stand alone. */
  lemma RejoiningIsUndelimited(s: string, stale: string, next: string)
    requires Rejoins(s, stale, next) && AllIdent(stale) && |next| < |stale|
    ensures !Delimited(s, stale)
  {
    var k :| RejoinsAt(s, stale, next, k);
    var both := stale + stale[k..];
    var j :| At(s, j, both);
    var found := s[j..j + |both|];
    assert found[..|stale|] == stale && found[|stale|] == stale[k];
    assert s[j..j + |stale|] == stale;
    assert At(s, j, stale) && Ident(s[j + |stale|]);
  }
}
