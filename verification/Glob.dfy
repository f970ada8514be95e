/** Key patterns: `*` and `?` matching by backtracking (internal/engine/kv.go). */
module Glob {

  /** `*` stands for any text, `?` for any one character. */
  ghost predicate Matches(p: string, s: string)
    decreases |p|
  {
    if p == "" then s == ""
    else if p[0] == '*' then exists k :: 0 <= k <= |s| && Matches(p[1..], s[k..])
    else s != "" && (p[0] == '?' || p[0] == s[0]) && Matches(p[1..], s[1..])
  }

  ghost predicate AllStars(p: string)
  {
    forall i :: 0 <= i < |p| ==> p[i] == '*'
  }

  /** As `Matches`, except that a `*` in the pattern that meets a `*` in the
      subject stands for that one character only. */
  ghost predicate Accepts(p: string, s: string)
    decreases |p|
  {
    if s == "" then AllStars(p)
    else if p == "" then false
    else if p[0] == '?' || p[0] == s[0] then Accepts(p[1..], s[1..])
    else p[0] == '*' && exists k :: 0 <= k <= |s| && Accepts(p[1..], s[k..])
  }

  // ---- The backtracking loop ----

  /** Some suffix of the subject from `from` on is accepted. */
  ghost predicate AcceptsFrom(p: string, s: string, from: nat)
  {
    exists k :: from <= k <= |s| && Accepts(p, s[k..])
  }

  /** The pattern from `a` and the subject from `m` agree for `n` characters. */
  ghost predicate Agree(p: string, a: nat, s: string, m: nat, n: nat)
    requires a + n <= |p| && m + n <= |s|
  {
    forall j :: a <= j < a + n ==> p[j] == '?' || p[j] == s[j - a + m]
  }

  lemma AcceptsLiteral(p: string, i: nat, s: string, j: nat)
    requires i < |p| && j < |s|
    requires p[i] == '?' || p[i] == s[j]
    ensures Accepts(p[i..], s[j..]) <==> Accepts(p[i + 1..], s[j + 1..])
  {
    assert p[i..][1..] == p[i + 1..] && s[j..][1..] == s[j + 1..];
  }

  lemma AcceptsStar(p: string, i: nat, s: string, j: nat)
    requires i < |p| && j < |s|
    requires p[i] == '*' && s[j] != '*'
    ensures Accepts(p[i..], s[j..]) <==> AcceptsFrom(p[i + 1..], s, j)
  {
    assert p[i..][1..] == p[i + 1..];
    assert forall k :: 0 <= k <= |s| - j ==> s[j..][k..] == s[j + k..];
    if AcceptsFrom(p[i + 1..], s, j) {
      var k :| j <= k <= |s| && Accepts(p[i + 1..], s[k..]);
      assert Accepts(p[i..][1..], s[j..][k - j..]);
    }
    if Accepts(p[i..], s[j..]) {
      var k :| 0 <= k <= |s[j..]| && Accepts(p[i..][1..], s[j..][k..]);
      assert s[j..][k..] == s[j + k..];
    }
  }

  /** A star accepts whatever the rest of the pattern accepts further on. */
  lemma StarReaches(p: string, i: nat, s: string, j: nat)
    requires i < |p| && j <= |s| && p[i] == '*'
    requires Accepts(p[i..], s[j..])
    ensures AcceptsFrom(p[i + 1..], s, j)
  {
    if j == |s| {
      assert p[i..][1..] == p[i + 1..];
      assert Accepts(p[i + 1..], s[j..]);
    } else if s[j] == '*' {
      AcceptsLiteral(p, i, s, j);
    } else {
      AcceptsStar(p, i, s, j);
    }
  }

  lemma StarsToTheEnd(p: string, i: nat)
    requires AllStars(p) && i <= |p|
    ensures AllStars(p[i..])
  {
  }

  /**
   * Every acceptance that starts later than the current attempt passes the
   * current pattern position no earlier in the subject than the attempt does.
   */
  lemma {:induction false} LaterAttempts(p: string, a: nat, s: string, m: nat, n: nat, i: nat, x: nat)
    requires a + n <= |p| && m + n <= |s| && Agree(p, a, s, m, n)
    requires i <= n && m + i <= x <= |s|
    requires Accepts(p[a + i..], s[x..])
    ensures AcceptsFrom(p[a + n..], s, m + n)
    decreases n - i
  {
    if i < n {
      if x == |s| {
        StarsToTheEnd(p[a + i..], n - i);
        assert p[a + i..][n - i..] == p[a + n..];
        assert Accepts(p[a + n..], s[|s|..]);
      } else if p[a + i] == '?' || p[a + i] == s[x] {
        AcceptsLiteral(p, a + i, s, x);
        LaterAttempts(p, a, s, m, n, i + 1, x + 1);
      } else {
        // a star that stands for text here met a star in the current attempt
        assert p[a + i] == '*' && s[m + i] == '*' && x > m + i;
        AcceptsStar(p, a + i, s, x);
        var k := AcceptedAt(p[a + i + 1..], s, x);
        LaterAttempts(p, a, s, m, n, i + 1, k);
      }
    }
  }

  /** Moving on to a new star loses nothing. */
  lemma NewStar(p: string, star: nat, s: string, m: nat, n: nat)
    requires star + 1 + n < |p| && m + n < |s| && Agree(p, star + 1, s, m, n)
    requires p[star + 1 + n] == '*' && s[m + n] != '*'
    requires Accepts(p[star + 1..], s[m..]) <==> Accepts(p[star + 1 + n..], s[m + n..])
    ensures AcceptsFrom(p[star + 1..], s, m) <==> AcceptsFrom(p[star + 1 + n + 1..], s, m + n)
  {
    hide Accepts, AcceptsFrom;
    var q := star + 1 + n;
    AcceptsStar(p, q, s, m + n);
    if AcceptsFrom(p[star + 1..], s, m) {
      var k := AcceptedAt(p[star + 1..], s, m);
      LaterAttempts(p, star + 1, s, m, n, 0, k);
      var k' := AcceptedAt(p[q..], s, m + n);
      StarReaches(p, q, s, k');
      Widen(p[q + 1..], s, m + n, k');
    } else {
      RejectedAt(p[star + 1..], s, m, m);
    }
  }

  lemma AcceptedAt(p: string, s: string, from: nat) returns (k: nat)
    requires AcceptsFrom(p, s, from)
    ensures from <= k <= |s| && Accepts(p, s[k..])
  {
    k :| from <= k <= |s| && Accepts(p, s[k..]);
  }

  lemma Widen(p: string, s: string, from: nat, later: nat)
    requires from <= later && AcceptsFrom(p, s, later)
    ensures AcceptsFrom(p, s, from)
  {
  }

  lemma RejectedAt(p: string, s: string, from: nat, k: nat)
    requires from <= k <= |s| && !AcceptsFrom(p, s, from)
    ensures !Accepts(p, s[k..])
  {
  }

  /** An attempt that used up the subject decides. */
  lemma AttemptDecides(p: string, star: nat, s: string, m: nat, n: nat)
    requires star + 1 + n <= |p| && m + n == |s| && Agree(p, star + 1, s, m, n)
    requires Accepts(p[star + 1..], s[m..]) <==> Accepts(p[star + 1 + n..], s[|s|..])
    ensures AcceptsFrom(p[star + 1..], s, m) <==> AllStars(p[star + 1 + n..])
  {
    if AcceptsFrom(p[star + 1..], s, m) {
      var k :| m <= k <= |s| && Accepts(p[star + 1..], s[k..]);
      LaterAttempts(p, star + 1, s, m, n, 0, k);
    }
  }

  method GlobMatch(pattern: string, str: string) returns (matched: bool)
    ensures matched <==> Accepts(pattern, str)
  {
    hide Accepts, AcceptsFrom, AllStars;
    var p, s, star, match_ := 0, 0, -1, 0;
    assert pattern[0..] == pattern && str[0..] == str;
    while s < |str|
      invariant 0 <= p <= |pattern| && 0 <= s <= |str|
      invariant -1 <= star < |pattern| && 0 <= match_ <= s
      invariant star == -1 ==> (Accepts(pattern, str) <==> Accepts(pattern[p..], str[s..]))
      invariant star >= 0 ==> p == star + 1 + (s - match_) && Agree(pattern, star + 1, str, match_, s - match_)
      invariant star >= 0 ==> (Accepts(pattern, str) <==> AcceptsFrom(pattern[star + 1..], str, match_))
      invariant star >= 0 ==> (Accepts(pattern[star + 1..], str[match_..]) <==> Accepts(pattern[p..], str[s..]))
      decreases |pattern| - star, |str| - match_, |str| - s
    {
      if p < |pattern| && (pattern[p] == '?' || pattern[p] == str[s]) {
        AcceptsLiteral(pattern, p, str, s);
        p, s := p + 1, s + 1;
      } else if p < |pattern| && pattern[p] == '*' {
        if star == -1 {
          AcceptsStar(pattern, p, str, s);
        } else {
          NewStar(pattern, star, str, match_, s - match_);
        }
        star, match_ := p, s;
        p := p + 1;
      } else if star != -1 {
        Rejects(pattern, p, str, s);
        NextAttempt(pattern[star + 1..], str, match_);
        p := star + 1;
        match_ := match_ + 1;
        s := match_;
      } else {
        Rejects(pattern, p, str, s);
        return false;
      }
    }
    if star >= 0 {
      AttemptDecides(pattern, star, str, match_, s - match_);
    }
    EmptySubject(pattern[p..], str[s..]);
    ghost var q := p;
    while p < |pattern| && pattern[p] == '*'
      invariant q <= p <= |pattern|
      invariant forall i :: q <= i < p ==> pattern[i] == '*'
    {
      p := p + 1;
    }
    OnlyStarsLeft(pattern, q, p);
    return p == |pattern|;
  }

  lemma Rejects(p: string, i: nat, s: string, j: nat)
    requires i <= |p| && j < |s|
    requires i < |p| ==> p[i] != '?' && p[i] != s[j] && p[i] != '*'
    ensures !Accepts(p[i..], s[j..])
  {
  }

  lemma NextAttempt(p: string, s: string, m: nat)
    requires m < |s| && !Accepts(p, s[m..])
    ensures AcceptsFrom(p, s, m) <==> AcceptsFrom(p, s, m + 1)
  {
  }

  lemma EmptySubject(p: string, s: string)
    requires s == ""
    ensures Accepts(p, s) <==> AllStars(p)
  {
  }

  lemma OnlyStarsLeft(p: string, q: nat, e: nat)
    requires q <= e <= |p|
    requires forall i :: q <= i < e ==> p[i] == '*'
    requires e < |p| ==> p[e] != '*'
    ensures AllStars(p[q..]) <==> e == |p|
  {
    if e < |p| {
      assert p[q..][e - q] == p[e];
    }
  }

  // ---- What is accepted ----

  lemma {:induction false} StarsMatchNothing(p: string)
    ensures Matches(p, "") <==> AllStars(p)
  {
    if p != "" {
      StarsMatchNothing(p[1..]);
      if p[0] == '*' {
        assert ""[0..] == "";
        assert AllStars(p) <==> AllStars(p[1..]) by {
          assert forall i :: 1 <= i < |p| ==> p[i] == p[1..][i - 1];
        }
      }
    }
  }

  /** Sound on all inputs: only matching subjects are accepted. */
  lemma {:induction false} AcceptsIsSound(p: string, s: string)
    requires Accepts(p, s)
    ensures Matches(p, s)
    decreases |p|
  {
    if s == "" {
      StarsMatchNothing(p);
    } else if p[0] == '?' || p[0] == s[0] {
      AcceptsIsSound(p[1..], s[1..]);
    } else {
      var k :| 0 <= k <= |s| && Accepts(p[1..], s[k..]);
      AcceptsIsSound(p[1..], s[k..]);
    }
  }

  /** Complete on subjects without a star. */
  lemma {:induction false} AcceptsIsComplete(p: string, s: string)
    requires Matches(p, s) && '*' !in s
    ensures Accepts(p, s)
    decreases |p|
  {
    if s == "" {
      StarsMatchNothing(p);
    } else if p[0] == '*' {
      var k :| 0 <= k <= |s| && Matches(p[1..], s[k..]);
      AcceptsIsComplete(p[1..], s[k..]);
    } else {
      AcceptsIsComplete(p[1..], s[1..]);
    }
  }

  ghost function Wildcards(n: nat): string
  {
    seq(n, _ => '?')
  }

  lemma {:induction false} WildcardsCount(n: nat, s: string)
    ensures Matches(Wildcards(n), s) <==> |s| == n
    ensures Accepts(Wildcards(n), s) <==> |s| == n
  {
    if n > 0 && s != "" {
      assert Wildcards(n)[1..] == Wildcards(n - 1);
      WildcardsCount(n - 1, s[1..]);
    }
  }

  /** A literal prefix is matched by itself. */
  lemma {:induction false} LiteralPrefix(u: string, p: string, s: string)
    requires '*' !in u
    ensures Matches(u + p, u + s) <==> Matches(p, s)
    ensures u + s != "" ==> (Accepts(u + p, u + s) <==> Accepts(p, s))
  {
    if u == "" {
      assert u + p == p && u + s == s;
    } else {
      LiteralPrefix(u[1..], p, s);
      assert (u + p)[1..] == u[1..] + p && (u + s)[1..] == u[1..] + s;
      if u[1..] + s == "" {
        assert u[1..] + p == p;
      }
    }
  }

  /** For every subject with a star there is a matching pattern that is refused. */
  lemma RefusedPattern(u: string, v: string) returns (p: string)
    requires '*' !in u
    ensures Matches(p, u + "*" + v) && !Accepts(p, u + "*" + v) && p != "*"
  {
    var tail := "*" + Wildcards(|v| + 1);
    var subject := "*" + v;
    p := u + tail;
    assert u + "*" + v == u + subject;
    LiteralPrefix(u, tail, subject);
    assert tail[1..] == Wildcards(|v| + 1) && subject[1..] == v && subject[0..] == subject;
    WildcardsCount(|v| + 1, subject);
    WildcardsCount(|v| + 1, v);
    assert |p| >= 2;
  }

  /** Reaches the first star of a subject. */
  lemma {:induction false} SplitAtStar(s: string) returns (u: string, v: string)
    requires '*' in s
    ensures s == u + "*" + v && '*' !in u
  {
    if s[0] == '*' {
      u, v := "", s[1..];
    } else {
      u, v := SplitAtStar(s[1..]);
      u := [s[0]] + u;
    }
  }

  /** Whole patterns `*` are answered without looking at the subject. */
  method MatchGlob(pattern: string, s: string) returns (matched: bool)
    ensures matched ==> Matches(pattern, s)
    ensures '*' !in s ==> (matched <==> Matches(pattern, s))
    ensures matched <==> pattern == "*" || Accepts(pattern, s)
  {
    if pattern == "*" {
      assert pattern[1..] == "" && s[|s|..] == "";
      return true;
    }
    matched := GlobMatch(pattern, s);
    if matched {
      AcceptsIsSound(pattern, s);
    }
    if Matches(pattern, s) && '*' !in s {
      AcceptsIsComplete(pattern, s);
    }
  }

  /** Exactly the subjects without a star are matched as declared by every pattern. */
  lemma CorrectIffNoStar(s: string)
    ensures (forall p :: p == "*" || Accepts(p, s) <==> Matches(p, s)) <==> '*' !in s
  {
    if '*' in s {
      var u, v := SplitAtStar(s);
      var p := RefusedPattern(u, v);
      assert !(p == "*" || Accepts(p, s) <==> Matches(p, s));
    } else {
      forall p
        ensures p == "*" || Accepts(p, s) <==> Matches(p, s)
      {
        if p == "*" {
          assert p[1..] == "" && s[|s|..] == "";
        }
        if Accepts(p, s) {
          AcceptsIsSound(p, s);
        }
        if Matches(p, s) {
          AcceptsIsComplete(p, s);
        }
      }
    }
  }
}
