/** SQL `LIKE` and `ILIKE`: the iterative matcher that backtracks to the last `%`, against the
    declarative meaning of a pattern. */
module Like {
  import opened Base

  datatype LikeError = InvalidEscape

  function Fold(c: char, ci: bool): char {
    if ci && 'A' <= c <= 'Z' then c - 'A' + 'a' else c
  }

  function FoldAll(s: string, ci: bool): (t: string)
    ensures |t| == |s| && forall i | 0 <= i < |s| :: t[i] == Fold(s[i], ci)
  {
    seq(|s|, i requires 0 <= i < |s| => Fold(s[i], ci))
  }

  // ---- What a pattern means -------------------------------------------------------------------

  /** `%` matches any run of characters, `_` one character, `\` the next character literally.
      A lone `\` at the end is no token at all: a match that reaches it is an error, so it
      counts here as reached. */
  ghost predicate Matches(p: string, s: string, ci: bool)
    decreases |p|, |s|
  {
    if p == [] then s == []
    else if p[0] == '%' then Matches(p[1..], s, ci) || (s != [] && Matches(p, s[1..], ci))
    else if p[0] == '\\' then |p| == 1 || (s != [] && s[0] == Fold(p[1], ci) && Matches(p[2..], s[1..], ci))
    else s != [] && (p[0] == '_' || s[0] == Fold(p[0], ci)) && Matches(p[1..], s[1..], ci)
  }

  /** The pattern ends in a lone escape character. */
  predicate Dangling(p: string) {
    if p == [] then false
    else if p[0] == '\\' then |p| == 1 || Dangling(p[2..])
    else Dangling(p[1..])
  }

  /** What `like_match` should answer: an error when the match reaches a dangling escape. */
  ghost function Meaning(p: string, s: string, ci: bool): Result<bool, LikeError> {
    if !Matches(p, s, ci) then Ok(false) else if Dangling(p) then Err(InvalidEscape) else Ok(true)
  }

  // ---- Case and literals ------------------------------------------------------------------------

  /** The same letter up to ASCII case, or the same character. */
  predicate SameLetter(c: char, d: char) {
    || c == d
    || ('A' <= c <= 'Z' && 'a' <= d <= 'z' && d as int - c as int == 32)
    || ('A' <= d <= 'Z' && 'a' <= c <= 'z' && c as int - d as int == 32)
  }

  /** What equality of characters means to `LIKE` and to `ILIKE`. */
  predicate Same(c: char, d: char, ci: bool) { if ci then SameLetter(c, d) else c == d }

  predicate SameText(s: string, t: string, ci: bool) { |s| == |t| && forall i | 0 <= i < |s| :: Same(s[i], t[i], ci) }

  /** Folding identifies exactly the characters that differ in ASCII case. */
  lemma FoldIs(c: char, d: char, ci: bool)
    ensures Fold(c, ci) == Fold(d, ci) <==> Same(c, d, ci)
  {}

  /** ILIKE IS BLIND TO CASE: changing the case of the subject or of the pattern changes no answer. */
  lemma CaseBlind(p: string, q: string, s: string, t: string)
    requires SameText(p, q, true) && SameText(s, t, true)
    ensures Meaning(p, FoldAll(s, true), true) == Meaning(q, FoldAll(t, true), true)
  {
    forall i | 0 <= i < |s| ensures FoldAll(s, true)[i] == FoldAll(t, true)[i] { FoldIs(s[i], t[i], true); }
    assert FoldAll(s, true) == FoldAll(t, true);
    PatternCase(p, q, FoldAll(s, true));
    DanglingCase(p, q);
  }

  lemma {:induction false} PatternCase(p: string, q: string, s: string)
    requires SameText(p, q, true)
    ensures Matches(p, s, true) <==> Matches(q, s, true)
    decreases |p|, |s|
  {
    if p != [] {
      if p[0] == '%' {
        PatternCase(p[1..], q[1..], s);
        if s != [] { PatternCase(p, q, s[1..]); }
      } else if p[0] == '\\' {
        if |p| > 1 && s != [] {
          FoldIs(p[1], q[1], true);
          PatternCase(p[2..], q[2..], s[1..]);
        }
      } else if s != [] {
        FoldIs(p[0], q[0], true);
        PatternCase(p[1..], q[1..], s[1..]);
      }
    }
  }

  lemma {:induction false} DanglingCase(p: string, q: string)
    requires SameText(p, q, true)
    ensures Dangling(p) <==> Dangling(q)
  {
    if |p| > 1 && p[0] == '\\' {
      DanglingCase(p[2..], q[2..]);
    } else if p != [] {
      DanglingCase(p[1..], q[1..]);
    }
  }

  /** A pattern without special characters matches exactly its own text. */
  lemma {:induction false} LiteralMatches(p: string, s: string, ci: bool)
    requires forall i | 0 <= i < |p| :: p[i] != '%' && p[i] != '_' && p[i] != '\\'
    ensures Meaning(p, FoldAll(s, ci), ci) == Ok(SameText(p, s, ci))
  {
    if p != [] && s != [] {
      LiteralMatches(p[1..], s[1..], ci);
      assert FoldAll(s, ci)[1..] == FoldAll(s[1..], ci);
      FoldIs(s[0], p[0], ci);
      SameTextStep(p, s, ci);
    } else if p != [] {
      LiteralMatches(p[1..], s, ci);
    }
  }

  lemma SameTextStep(p: string, s: string, ci: bool)
    requires p != [] && s != []
    ensures SameText(p, s, ci) <==> Same(p[0], s[0], ci) && SameText(p[1..], s[1..], ci)
  {
    if SameText(p[1..], s[1..], ci) && Same(p[0], s[0], ci) {
      forall i | 0 <= i < |p| ensures Same(p[i], s[i], ci) {
        if i > 0 { assert p[i] == p[1..][i - 1] && s[i] == s[1..][i - 1]; }
      }
    }
  }

  /** Every character escaped. */
  function Quoted(t: string): string { if t == [] then [] else ['\\', t[0]] + Quoted(t[1..]) }

  /** An escaped text matches exactly itself, special characters included. */
  lemma {:induction false} QuotedMatches(t: string, s: string, ci: bool)
    ensures Meaning(Quoted(t), FoldAll(s, ci), ci) == Ok(SameText(t, s, ci))
  {
    if t != [] {
      assert Quoted(t)[2..] == Quoted(t[1..]);
      if s == [] {
        QuotedMatches(t[1..], s, ci);
      } else {
        QuotedMatches(t[1..], s[1..], ci);
        assert FoldAll(s, ci)[1..] == FoldAll(s[1..], ci);
        FoldIs(s[0], t[0], ci);
        SameTextStep(t, s, ci);
      }
    }
  }

  /** A run of `_` matches exactly the texts of its length. */
  lemma {:induction false} UnderscoreMatches(p: string, s: string, ci: bool)
    requires forall i | 0 <= i < |p| :: p[i] == '_'
    ensures Meaning(p, s, ci) == Ok(|s| == |p|)
  {
    if p != [] { UnderscoreMatches(p[1..], if s == [] then s else s[1..], ci); }
  }

  // ---- Stretches without `%` --------------------------------------------------------------------

  /** `m` is a run of complete tokens, none of them `%`. */
  predicate Fixed(m: string) {
    m == [] || (m[0] != '%' && if m[0] == '\\' then |m| > 1 && Fixed(m[2..]) else Fixed(m[1..]))
  }

  /** How many characters it consumes. */
  function Width(m: string): nat
    requires Fixed(m)
  {
    if m == [] then 0 else if m[0] == '\\' then 1 + Width(m[2..]) else 1 + Width(m[1..])
  }

  lemma {:induction false} FixedConsumes(m: string, rest: string, s: string, ci: bool)
    requires Fixed(m) && Matches(m + rest, s, ci)
    ensures Width(m) <= |s| && Matches(rest, s[Width(m)..], ci)
    decreases |m|
  {
    if m == [] {
      assert m + rest == rest && s[0..] == s;
    } else {
      var k := if m[0] == '\\' then 2 else 1;
      assert (m + rest)[k..] == m[k..] + rest;
      FixedConsumes(m[k..], rest, s[1..], ci);
      assert s[1..][Width(m[k..])..] == s[Width(m)..];
    }
  }

  /** One more token extends the stretch by one character. */
  lemma {:induction false} FixedExtends(m: string, token: string)
    requires Fixed(m) && Fixed(token) && |token| > 0
    requires (token[0] == '\\' ==> |token| == 2) && (token[0] != '\\' ==> |token| == 1)
    ensures Fixed(m + token) && Width(m + token) == Width(m) + 1
    decreases |m|
  {
    if m == [] {
      assert m + token == token;
      if |token| == 2 { assert token[2..] == []; } else { assert token[1..] == []; }
    } else {
      var k := if m[0] == '\\' then 2 else 1;
      assert (m + token)[k..] == m[k..] + token;
      FixedExtends(m[k..], token);
    }
  }

  // ---- `%` ------------------------------------------------------------------------------------

  lemma {:induction false} StarTakes(p: string, s: string, ci: bool, k: nat)
    requires p != [] && p[0] == '%' && k <= |s| && Matches(p[1..], s[k..], ci)
    ensures Matches(p, s, ci)
    decreases k
  {
    if k == 0 {
      assert s[0..] == s;
    } else {
      assert s[1..][k - 1..] == s[k..];
      StarTakes(p, s[1..], ci, k - 1);
    }
  }

  lemma {:induction false} StarLeaves(p: string, s: string, ci: bool) returns (k: nat)
    requires p != [] && p[0] == '%' && Matches(p, s, ci)
    ensures k <= |s| && Matches(p[1..], s[k..], ci)
    decreases |s|
  {
    if Matches(p[1..], s, ci) {
      k := 0;
      assert s[0..] == s;
    } else {
      var j := StarLeaves(p, s[1..], ci);
      k := j + 1;
      assert s[1..][j..] == s[k..];
    }
  }

  /** A leading `%` matches exactly when the rest matches some suffix. */
  lemma StarSkips(p: string, s: string, ci: bool)
    requires p != [] && p[0] == '%'
    ensures Matches(p, s, ci) <==> exists k :: 0 <= k <= |s| && Matches(p[1..], s[k..], ci)
  {
    if Matches(p, s, ci) { var k := StarLeaves(p, s, ci); }
    if k :| 0 <= k <= |s| && Matches(p[1..], s[k..], ci) { StarTakes(p, s, ci, k); }
  }

  /** Some later resumption of the last `%` would still match. */
  ghost predicate Later(p: string, s: string, ci: bool, sp: int, from: int)
    requires 0 <= sp < |p|
  {
    exists k :: from < k <= |s| && 0 <= k && Matches(p[sp + 1..], s[k..], ci)
  }

  /** Where the search stands. */
  ghost predicate Search(p: string, s: string, ci: bool, si: int, pi: int, star: Option<nat>, starSi: nat) {
    && 0 <= si <= |s| && 0 <= pi <= |p|
    && (star.None? ==> starSi == 0)
    && (star.Some? ==>
          && star.value < pi && p[star.value] == '%' && starSi <= si
          && Fixed(p[star.value + 1..pi]) && Width(p[star.value + 1..pi]) == si - starSi)
    && (Matches(p, s, ci) <==> Matches(p[pi..], s[si..], ci) || (star.Some? && Later(p, s, ci, star.value, starSi)))
    && (Dangling(p) <==> Dangling(p[pi..]))
  }

  /** Meeting a new `%` loses nothing: whatever an older resumption could reach, this one can. */
  lemma NewStar(p: string, s: string, ci: bool, si: nat, pi: nat, star: Option<nat>, starSi: nat)
    requires Search(p, s, ci, si, pi, star, starSi) && pi < |p| && p[pi] == '%'
    ensures Search(p, s, ci, si, pi + 1, Some(pi), si)
  {
    assert p[pi..][1..] == p[pi + 1..] && p[pi + 1..pi + 1] == [];
    StarSkips(p[pi..], s[si..], ci);
    if Matches(p[pi..], s[si..], ci) {
      var k :| 0 <= k <= |s[si..]| && Matches(p[pi + 1..], s[si..][k..], ci);
      assert s[si..][k..] == s[si + k..];
      assert k == 0 ==> s[si + k..] == s[si..];
    }
    if star.Some? && Later(p, s, ci, star.value, starSi) {
      OlderStar(p, s, ci, si, pi, star.value, starSi);
    }
    if Matches(p[pi + 1..], s[si..], ci) { assert s[si..][0..] == s[si..]; }
    if Later(p, s, ci, pi, si) {
      var k :| si < k <= |s| && Matches(p[pi + 1..], s[k..], ci);
      assert s[si..][k - si..] == s[k..];
    }
  }

  lemma OlderStar(p: string, s: string, ci: bool, si: nat, pi: nat, sp: nat, starSi: nat)
    requires sp < pi < |p| && p[pi] == '%' && starSi <= si <= |s|
    requires Fixed(p[sp + 1..pi]) && Width(p[sp + 1..pi]) == si - starSi && Later(p, s, ci, sp, starSi)
    ensures Matches(p[pi..], s[si..], ci)
  {
    var k :| starSi < k <= |s| && Matches(p[sp + 1..], s[k..], ci);
    var m := p[sp + 1..pi];
    assert p[sp + 1..] == m + p[pi..];
    FixedConsumes(m, p[pi..], s[k..], ci);
    var w := Width(m);
    assert s[k..][w..] == s[k + w..];
    StarSkips(p[pi..], s[k + w..], ci);
    var j :| 0 <= j <= |s[k + w..]| && Matches(p[pi..][1..], s[k + w..][j..], ci);
    assert s[k + w..][j..] == s[si..][k + w + j - si..];
    StarSkips(p[pi..], s[si..], ci);
  }

  /** A token that matches the next character moves both cursors. */
  lemma TokenStep(p: string, s: string, ci: bool, si: nat, pi: nat, star: Option<nat>, starSi: nat, n: nat)
    requires Search(p, s, ci, si, pi, star, starSi) && si < |s| && pi + n <= |p| && n > 0
    requires p[pi] != '%' && n == (if p[pi] == '\\' then 2 else 1)
    requires p[pi] == '_' || s[si] == Fold(p[pi + n - 1], ci)
    ensures Search(p, s, ci, si + 1, pi + n, star, starSi)
  {
    assert p[pi..][n..] == p[pi + n..] && s[si..][1..] == s[si + 1..];
    if star.Some? {
      var m, token := p[star.value + 1..pi], p[pi..pi + n];
      assert n == 2 ==> token[2..] == [];
      assert n == 1 ==> token[1..] == [];
      FixedExtends(m, token);
      assert m + token == p[star.value + 1..pi + n];
    }
  }

  /** A mismatch resumes the last `%` one character further. */
  lemma Backtrack(p: string, s: string, ci: bool, si: nat, pi: nat, sp: nat, starSi: nat)
    requires Search(p, s, ci, si, pi, Some(sp), starSi) && si < |s| && !Matches(p[pi..], s[si..], ci)
    ensures Search(p, s, ci, starSi + 1, sp + 1, Some(sp), starSi + 1)
  {
    assert p[sp + 1..sp + 1] == [];
    FixedDangling(p[sp + 1..pi], p[pi..]);
    assert p[sp + 1..pi] + p[pi..] == p[sp + 1..];
    LaterSplit(p, s, ci, sp, starSi);
  }

  lemma LaterSplit(p: string, s: string, ci: bool, sp: nat, from: nat)
    requires sp < |p| && from < |s|
    ensures Later(p, s, ci, sp, from) <==> Matches(p[sp + 1..], s[from + 1..], ci) || Later(p, s, ci, sp, from + 1)
  {}

  lemma {:induction false} FixedDangling(m: string, rest: string)
    requires Fixed(m)
    ensures Dangling(m + rest) <==> Dangling(rest)
    decreases |m|
  {
    if m == [] {
      assert m + rest == rest;
    } else {
      var k := if m[0] == '\\' then 2 else 1;
      assert (m + rest)[k..] == m[k..] + rest;
      FixedDangling(m[k..], rest);
    }
  }

  /** With the subject consumed, no later resumption has enough characters left. */
  lemma NoneLeft(p: string, s: string, ci: bool, pi: nat, sp: nat, starSi: nat)
    requires Search(p, s, ci, |s|, pi, Some(sp), starSi)
    ensures !Later(p, s, ci, sp, starSi)
  {
    if Later(p, s, ci, sp, starSi) {
      var k :| starSi < k <= |s| && Matches(p[sp + 1..], s[k..], ci);
      assert p[sp + 1..] == p[sp + 1..pi] + p[pi..];
      FixedConsumes(p[sp + 1..pi], p[pi..], s[k..], ci);
    }
  }

  // ---- The step bound ---------------------------------------------------------------------------

  function Times(a: nat, n: nat): nat { if a == 0 then 0 else Times(a - 1, n) + n + 1 }

  lemma {:induction false} TimesGrows(a: nat, b: nat, n: nat)
    requires a <= b
    ensures Times(a, n) <= Times(b, n) && (a < b ==> Times(a, n) + n + 1 <= Times(b, n))
  {
    if a < b { TimesGrows(a, b - 1, n); }
  }

  lemma {:induction false} TimesIsProduct(a: nat, n: nat)
    ensures Times(a, n) == a * (n + 1)
  {
    if a > 0 { TimesIsProduct(a - 1, n); }
  }

  /** The iterations so far are paid for by where the search has got to. */
  ghost predicate Paid(steps: nat, starSi: nat, pi: nat, n: nat) { steps <= Times(starSi, n) + pi }

  lemma PaysNext(steps: nat, starSi: nat, starSi': nat, pi: nat, pi': nat, n: nat)
    requires Paid(steps, starSi, pi, n) && pi <= n && pi' > 0
    requires starSi < starSi' || (starSi == starSi' && pi < pi')
    ensures Paid(steps + 1, starSi', pi', n)
  {
    if starSi < starSi' { TimesGrows(starSi, starSi', n); }
  }

  lemma PaidBound(steps: nat, starSi: nat, pi: nat, len: nat, n: nat)
    requires Paid(steps, starSi, pi, n) && starSi <= len && pi <= n
    ensures steps < Times(len + 1, n)
  {
    TimesGrows(starSi, len + 1, n);
  }

  // ---- The matcher ------------------------------------------------------------------------------

  /** What the main loop does at a position: fail on a lone escape, note a `%`, consume a token of
      `n` pattern characters, or give up on this alignment. */
  datatype Move = Invalid | Star | Token(n: nat) | Mismatch

  function NextMove(p: string, s: string, ci: bool, si: nat, pi: nat): Move
    requires si < |s| && pi <= |p|
  {
    if pi == |p| then Mismatch
    else if p[pi] == '\\' then
      if pi + 1 == |p| then Invalid else if s[si] == Fold(p[pi + 1], ci) then Token(2) else Mismatch
    else if p[pi] == '%' then Star
    else if p[pi] == '_' || s[si] == Fold(p[pi], ci) then Token(1)
    else Mismatch
  }

  lemma MismatchFails(p: string, s: string, ci: bool, si: nat, pi: nat)
    requires si < |s| && pi <= |p| && NextMove(p, s, ci, si, pi) == Mismatch
    ensures !Matches(p[pi..], s[si..], ci)
  {}

  lemma ReachesEscape(p: string, s: string, ci: bool, si: nat, pi: nat, star: Option<nat>, starSi: nat)
    requires Search(p, s, ci, si, pi, star, starSi) && si < |s| && NextMove(p, s, ci, si, pi) == Invalid
    ensures Meaning(p, s, ci) == Err(InvalidEscape)
  {
    assert p[pi..] == ['\\'];
  }

  /** The loop variables: subject and pattern cursors, the last `%` and where it resumes. */
  datatype At = At(si: nat, pi: nat, star: Option<nat>, starSi: nat)

  ghost predicate Searching(p: string, s: string, ci: bool, at: At) {
    Search(p, s, ci, at.si, at.pi, at.star, at.starSi) && at.starSi <= at.si
  }

  lemma StarKeeps(p: string, s: string, ci: bool, at: At)
    requires Searching(p, s, ci, at) && at.si < |s| && NextMove(p, s, ci, at.si, at.pi).Star?
    ensures Searching(p, s, ci, At(at.si, at.pi + 1, Some(at.pi), at.si))
  {
    NewStar(p, s, ci, at.si, at.pi, at.star, at.starSi);
  }

  lemma TokenKeeps(p: string, s: string, ci: bool, at: At)
    requires Searching(p, s, ci, at) && at.si < |s| && NextMove(p, s, ci, at.si, at.pi).Token?
    ensures Searching(p, s, ci, at.(si := at.si + 1, pi := at.pi + NextMove(p, s, ci, at.si, at.pi).n))
  {
    TokenStep(p, s, ci, at.si, at.pi, at.star, at.starSi, NextMove(p, s, ci, at.si, at.pi).n);
  }

  lemma MismatchKeeps(p: string, s: string, ci: bool, at: At)
    requires Searching(p, s, ci, at) && at.si < |s| && NextMove(p, s, ci, at.si, at.pi).Mismatch?
    ensures at.star.None? ==> Meaning(p, s, ci) == Ok(false)
    ensures at.star.Some? ==> Searching(p, s, ci, At(at.starSi + 1, at.star.value + 1, at.star, at.starSi + 1))
  {
    MismatchFails(p, s, ci, at.si, at.pi);
    if at.star.Some? { Backtrack(p, s, ci, at.si, at.pi, at.star.value, at.starSi); }
  }

  lemma ConsumedMeans(p: string, s: string, ci: bool, at: At)
    requires Searching(p, s, ci, at) && at.si == |s|
    ensures Meaning(p, s, ci) == Meaning(p[at.pi..], [], ci)
  {
    if at.star.Some? { NoneLeft(p, s, ci, at.pi, at.star.value, at.starSi); }
    assert s[at.si..] == [];
  }

  lemma StartsSearching(p: string, s: string, ci: bool)
    ensures Searching(p, s, ci, At(0, 0, None, 0))
  {
    assert p[0..] == p && s[0..] == s;
  }

  /** The search has moved on: the `%` resumes later, or the pattern cursor is further on. */
  predicate Further(at: At, at': At) { at.starSi < at'.starSi || (at.starSi == at'.starSi && at.pi < at'.pi) }

  /** One iteration of the main loop: a final answer, or the loop variables' next values. */
  method Iterate(p: string, s: string, ci: bool, at: At) returns (at': At, answer: Option<Result<bool, LikeError>>)
    requires Searching(p, s, ci, at) && at.si < |s|
    ensures answer.Some? ==> answer.value == Meaning(p, s, ci) && at' == at
    ensures answer.None? ==> Searching(p, s, ci, at') && Further(at, at') && at'.pi > 0
  {
    match NextMove(p, s, ci, at.si, at.pi)
    case Invalid =>
      ReachesEscape(p, s, ci, at.si, at.pi, at.star, at.starSi);
      return at, Some(Err(InvalidEscape));
    case Star =>
      StarKeeps(p, s, ci, at);
      return At(at.si, at.pi + 1, Some(at.pi), at.si), None;
    case Token(n) =>
      TokenKeeps(p, s, ci, at);
      return at.(si := at.si + 1, pi := at.pi + n), None;
    case Mismatch =>
      MismatchKeeps(p, s, ci, at);
      if at.star.None? { return at, Some(Ok(false)); }
      return At(at.starSi + 1, at.star.value + 1, at.star, at.starSi + 1), None;
  }

  /** `like_match`: for every subject and every pattern it answers the pattern's meaning, in fewer
      than `(|s| + 1) * (|p| + 1)` iterations of the main loop (`TimesIsProduct`). */
  method LikeMatch(subject: string, p: string, ci: bool) returns (r: Result<bool, LikeError>, ghost steps: nat)
    ensures r == Meaning(p, FoldAll(subject, ci), ci)
    ensures steps < Times(|subject| + 1, |p|)
  {
    var s := FoldAll(subject, ci);
    var at := At(0, 0, None, 0);
    StartsSearching(p, s, ci);
    steps := 0;
    while at.si < |s|
      invariant Searching(p, s, ci, at) && Paid(steps, at.starSi, at.pi, |p|)
      decreases |s| - at.starSi, |p| - at.pi
    {
      var next, answer := Iterate(p, s, ci, at);
      if answer.Some? {
        PaidBound(steps, at.starSi, at.pi, |s|, |p|);
        return answer.value, steps;
      }
      PaysNext(steps, at.starSi, next.starSi, at.pi, next.pi, |p|);
      at, steps := next, steps + 1;
    }
    PaidBound(steps, at.starSi, at.pi, |s|, |p|);
    ConsumedMeans(p, s, ci, at);
    r := MatchEnd(p, at.pi, ci);
  }

  /** The second loop: with the subject consumed, only `%` may remain. */
  method MatchEnd(p: string, start: nat, ci: bool) returns (r: Result<bool, LikeError>)
    requires start <= |p|
    ensures r == Meaning(p[start..], [], ci)
  {
    var pi := start;
    while pi < |p|
      invariant start <= pi <= |p| && Meaning(p[start..], [], ci) == Meaning(p[pi..], [], ci)
    {
      if p[pi] == '\\' {
        if pi + 1 == |p| {
          assert p[pi..] == ['\\'];
          return Err(InvalidEscape);
        }
        return Ok(false);
      }
      if p[pi] != '%' { return Ok(false); }
      assert p[pi..][1..] == p[pi + 1..];
      pi := pi + 1;
    }
    assert p[pi..] == [];
    return Ok(true);
  }
}
