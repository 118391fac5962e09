/** Slugs: the text of a role or an instance made fit for the name of a service. */
module Slugs {
  import opened Strings

  predicate IsAlnum(c: char) {
    '0' <= c <= '9' || 'a' <= c <= 'z' || 'A' <= c <= 'Z'
  }

  /** re.sub("[^A-Za-z0-9]+", "-", s) */
  function Dashed(s: string): string {
    if s == [] then []
    else if IsAlnum(s[0]) then [s[0]] + Dashed(s[1..])
    else if |s| == 1 || IsAlnum(s[1]) then ['-'] + Dashed(s[1..])
    else Dashed(s[1..])
  }

  function TrimLeft(s: string): string {
    if s != [] && s[0] == '-' then TrimLeft(s[1..]) else s
  }

  function TrimRight(s: string): string {
    if s != [] && s[|s| - 1] == '-' then TrimRight(s[..|s| - 1]) else s
  }

  function Slug(s: string): string {
    var slug := Lower(TrimRight(TrimLeft(Dashed(Strip(s)))));
    if slug == "" then "default" else slug
  }

  // ---- The words of a text -----------------------------------------------------------------

  /** How many letters and digits the text starts with. */
  function RunLength(s: string): (n: nat)
    ensures n <= |s| && (forall i :: 0 <= i < n ==> IsAlnum(s[i])) && (n < |s| ==> !IsAlnum(s[n]))
  {
    if s == [] || !IsAlnum(s[0]) then 0 else 1 + RunLength(s[1..])
  }

  /** The runs of letters and digits. */
  function Runs(s: string): seq<string>
    decreases |s|
  {
    if s == [] then []
    else if !IsAlnum(s[0]) then Runs(s[1..])
    else [s[..RunLength(s)]] + Runs(s[RunLength(s)..])
  }

  predicate IsWord(w: string) {
    w != "" && forall i :: 0 <= i < |w| ==> IsAlnum(w[i])
  }

  predicate AreWords(words: seq<string>) {
    forall i :: 0 <= i < |words| ==> IsWord(words[i])
  }

  /** The words with a dash between any two. */
  function Joined(words: seq<string>): string {
    if words == [] then ""
    else if |words| == 1 then words[0]
    else words[0] + (['-'] + Joined(words[1..]))
  }

  lemma {:induction false} RunsAreWords(s: string)
    ensures AreWords(Runs(s))
    decreases |s|
  {
    if s != [] {
      if IsAlnum(s[0]) {
        RunsAreWords(s[RunLength(s)..]);
      } else {
        RunsAreWords(s[1..]);
      }
    }
  }

  lemma JoinedMore(w: string, words: seq<string>)
    ensures Joined([w] + words) == if words == [] then w else w + (['-'] + Joined(words))
  {
    assert ([w] + words)[1..] == words;
  }

  lemma {:induction false} JoinedEnds(words: seq<string>)
    requires words != [] && AreWords(words)
    ensures var s := Joined(words); s != "" && IsAlnum(s[0]) && IsAlnum(s[|s| - 1])
  {
    if |words| > 1 {
      JoinedEnds(words[1..]);
    }
  }

  // ---- A slug is the words, joined ---------------------------------------------------------

  lemma {:induction false} DashedWord(w: string, r: string)
    requires forall i :: 0 <= i < |w| ==> IsAlnum(w[i])
    ensures Dashed(w + r) == w + Dashed(r)
  {
    if w == "" {
      assert w + r == r;
    } else {
      assert (w + r)[1..] == w[1..] + r;
      DashedWord(w[1..], r);
    }
  }

  function Dash(there: bool): string {
    if there then ['-'] else ""
  }

  /** The runs with single dashes between them, and one at either end where the text has no letter or
      digit there. */
  lemma {:induction false} DashedRuns(s: string)
    ensures Runs(s) == [] ==> Dashed(s) == Dash(s != "")
    ensures Runs(s) != [] ==>
      s != "" && Dashed(s) == Dash(!IsAlnum(s[0])) + (Joined(Runs(s)) + Dash(!IsAlnum(s[|s| - 1])))
    decreases |s|
  {
    if s != "" {
      if IsAlnum(s[0]) {
        var n := RunLength(s);
        DashedRuns(s[n..]);
        WordDashed(s, n);
      } else {
        DashedRuns(s[1..]);
        OtherDashed(s);
      }
    }
  }

  lemma WordDashed(s: string, n: nat)
    requires s != "" && IsAlnum(s[0]) && n == RunLength(s)
    requires var r := s[n..];
      if Runs(r) == [] then Dashed(r) == Dash(r != "")
      else r != "" && Dashed(r) == Dash(!IsAlnum(r[0])) + (Joined(Runs(r)) + Dash(!IsAlnum(r[|r| - 1])))
    ensures Runs(s) != [] && Dashed(s) == Joined(Runs(s)) + Dash(!IsAlnum(s[|s| - 1]))
  {
    var w, r := s[..n], s[n..];
    assert s == w + r;
    DashedWord(w, r);
    LastChar(s, n);
    if Runs(r) == [] {
      assert [w] + [] == [w];
    } else {
      JoinedMore(w, Runs(r));
      Regrouped(w, Joined(Runs(r)), Dash(!IsAlnum(r[|r| - 1])));
    }
  }

  lemma Regrouped(a: string, b: string, c: string)
    ensures a + (['-'] + (b + c)) == a + (['-'] + b) + c
  {
  }

  lemma LastChar(s: string, n: nat)
    requires s != "" && IsAlnum(s[0]) && n == RunLength(s)
    ensures if n == |s| then IsAlnum(s[|s| - 1]) else s[n..][|s[n..]| - 1] == s[|s| - 1] && !IsAlnum(s[n..][0])
    ensures Runs(s[n..]) == [] && n < |s| ==> !IsAlnum(s[|s| - 1])
  {
    if n < |s| && IsAlnum(s[|s| - 1]) {
      LastRun(s[n..]);
    }
  }

  lemma {:induction false} LastRun(r: string)
    requires r != "" && IsAlnum(r[|r| - 1])
    ensures Runs(r) != []
    decreases |r|
  {
    if !IsAlnum(r[0]) {
      LastRun(r[1..]);
    }
  }

  lemma OtherDashed(s: string)
    requires s != "" && !IsAlnum(s[0])
    requires var r := s[1..];
      if Runs(r) == [] then Dashed(r) == Dash(r != "")
      else r != "" && Dashed(r) == Dash(!IsAlnum(r[0])) + (Joined(Runs(r)) + Dash(!IsAlnum(r[|r| - 1])))
    ensures Runs(s) == Runs(s[1..])
    ensures Runs(s) == [] ==> Dashed(s) == Dash(true)
    ensures Runs(s) != [] ==> Dashed(s) == Dash(true) + (Joined(Runs(s)) + Dash(!IsAlnum(s[|s| - 1])))
  {
    var r := s[1..];
    if r != "" && IsAlnum(r[0]) {
      assert Runs(r) != [];
    }
  }

  lemma TrimsLeft(there: bool, s: string)
    requires s != "" ==> s[0] != '-'
    ensures TrimLeft(Dash(there) + s) == s
  {
    if there {
      assert (Dash(there) + s)[1..] == s;
    } else {
      assert Dash(there) + s == s;
    }
  }

  lemma TrimsRight(s: string, there: bool)
    requires s != "" ==> s[|s| - 1] != '-'
    ensures TrimRight(s + Dash(there)) == s
  {
    var t := s + Dash(there);
    if there {
      assert t[..|t| - 1] == s;
    } else {
      assert t == s;
    }
  }

  lemma TrimmedRuns(s: string)
    ensures TrimRight(TrimLeft(Dashed(s))) == Joined(Runs(s))
  {
    DashedRuns(s);
    if Runs(s) == [] {
      TrimsLeft(s != "", "");
      assert Dash(s != "") + "" == Dash(s != "");
    } else {
      RunsAreWords(s);
      JoinedEnds(Runs(s));
      TrimsLeft(!IsAlnum(s[0]), Joined(Runs(s)) + Dash(!IsAlnum(s[|s| - 1])));
      TrimsRight(Joined(Runs(s)), !IsAlnum(s[|s| - 1]));
    }
  }

  lemma {:induction false} LStripRuns(s: string)
    ensures Runs(LStrip(s)) == Runs(s)
  {
    if s != "" && IsSpace(s[0]) {
      LStripRuns(s[1..]);
    }
  }

  /** What is no letter or digit adds no run at the end. */
  lemma {:induction false} RunsBefore(s: string, c: char)
    requires !IsAlnum(c)
    ensures Runs(s + [c]) == Runs(s)
    decreases |s|
  {
    var t := s + [c];
    if s == "" {
      assert t[1..] == "";
    } else if IsAlnum(s[0]) {
      var n := RunLength(s);
      RunEnds(s, c);
      assert t[..n] == s[..n] && t[n..] == s[n..] + [c];
      RunsBefore(s[n..], c);
    } else {
      assert t[1..] == s[1..] + [c];
      RunsBefore(s[1..], c);
    }
  }

  lemma {:induction false} RunEnds(s: string, c: char)
    requires !IsAlnum(c)
    ensures RunLength(s + [c]) == RunLength(s)
  {
    if s != "" && IsAlnum(s[0]) {
      assert (s + [c])[1..] == s[1..] + [c];
      RunEnds(s[1..], c);
    }
  }

  lemma {:induction false} RStripRuns(s: string)
    ensures Runs(RStrip(s)) == Runs(s)
  {
    if s != "" && IsSpace(s[|s| - 1]) {
      var front := s[..|s| - 1];
      RStripRuns(front);
      RunsBefore(front, s[|s| - 1]);
      assert s == front + [s[|s| - 1]];
    }
  }

  /** The words of a slug: the runs of letters and digits in lower case, or "default" if there are none. */
  function Words(s: string): (words: seq<string>)
    ensures words != []
  {
    if Runs(s) == [] then ["default"] else seq(|Runs(s)|, i requires 0 <= i < |Runs(s)| => Lower(Runs(s)[i]))
  }

  lemma LowerJoin(a: string, b: string)
    ensures Lower(a + (['-'] + b)) == Lower(a) + (['-'] + Lower(b))
  {
    var l, r := Lower(a + (['-'] + b)), Lower(a) + (['-'] + Lower(b));
    forall i | 0 <= i < |l| ensures l[i] == r[i] {
      assert l[i] == LowerChar((a + (['-'] + b))[i]);
    }
    assert l == r;
  }

  lemma {:induction false} LowerJoined(words: seq<string>, lows: seq<string>)
    requires |words| == |lows| && forall i :: 0 <= i < |words| ==> lows[i] == Lower(words[i])
    ensures Lower(Joined(words)) == Joined(lows)
  {
    if |words| > 1 {
      LowerJoined(words[1..], lows[1..]);
      LowerJoin(words[0], Joined(words[1..]));
    }
  }

  /** A slug is the words of the text with single dashes between them. */
  lemma SlugIsWords(s: string)
    ensures Slug(s) == Joined(Words(s))
  {
    LStripRuns(s);
    RStripRuns(LStrip(s));
    TrimmedRuns(Strip(s));
    if Runs(s) != [] {
      RunsAreWords(s);
      JoinedEnds(Runs(s));
      LowerJoined(Runs(s), Words(s));
    }
  }

  // ---- Reading the words back --------------------------------------------------------------

  lemma WordsAreWords(s: string)
    ensures AreWords(Words(s))
  {
    RunsAreWords(s);
  }

  lemma DashAt(s: string, k: nat)
    requires k <= |s| && (k < |s| ==> s[k] == '-') && forall i :: 0 <= i < k ==> IsAlnum(s[i])
    ensures Find(s, '-') == k
  {
  }

  lemma WordAhead(word: string, r: string)
    requires IsWord(word)
    ensures var s := word + (['-'] + r); word <= s && Find(s, '-') == |word| && s[|word| + 1..] == r
    ensures Find(word, '-') == |word|
  {
    DashAt(word + (['-'] + r), |word|);
    DashAt(word, |word|);
  }

  /** The first word of joined words ends at the first dash. */
  lemma FirstDash(words: seq<string>)
    requires words != [] && AreWords(words)
    ensures var s := Joined(words);
      words[0] <= s && Find(s, '-') == |words[0]|
      && (if |words| == 1 then s == words[0] else |words[0]| < |s| && s[|words[0]| + 1..] == Joined(words[1..]))
  {
    WordAhead(words[0], if |words| > 1 then Joined(words[1..]) else "");
  }

  lemma {:induction false} JoinedInjective(a: seq<string>, b: seq<string>)
    requires AreWords(a) && AreWords(b) && Joined(a) == Joined(b)
    ensures a == b
  {
    if a == [] || b == [] {
      if a != [] { JoinedEnds(a); }
      if b != [] { JoinedEnds(b); }
    } else {
      FirstDash(a);
      FirstDash(b);
      assert a[0] == Joined(a)[..|a[0]|] && b[0] == Joined(b)[..|b[0]|];
      if |a| > 1 {
        JoinedInjective(a[1..], b[1..]);
      }
      assert a == [a[0]] + a[1..] && b == [b[0]] + b[1..];
    }
  }

  lemma WhatFollows(s: string, word: string, rest: string)
    requires word + (['-'] + rest) <= s
    ensures s == word + (['-'] + (rest + s[|word| + 1 + |rest|..]))
  {
    var p := word + (['-'] + rest);
    assert s == p + s[|p|..];
  }

  lemma Ahead(word: string, rest: string, t: string)
    requires IsWord(word)
    ensures var s := word + (['-'] + (rest + t));
      Find(s, '-') == |word| && |word| < |s| && s[..|word|] == word && s[|word| + 1..] == rest + t
  {
    WordAhead(word, rest + t);
  }

  /** A word and a dash begin the joined words exactly when it is the first of several. */
  lemma PrefixWord(word: string, rest: string, words: seq<string>)
    requires IsWord(word) && words != [] && AreWords(words)
    ensures word + (['-'] + rest) <= Joined(words)
      <==> |words| >= 2 && words[0] == word && rest <= Joined(words[1..])
  {
    FirstDash(words);
    if word + (['-'] + rest) <= Joined(words) {
      WhatFollows(Joined(words), word, rest);
      Ahead(word, rest, Joined(words)[|word| + 1 + |rest|..]);
      assert words[0] == Joined(words)[..|words[0]|];
    }
    if |words| >= 2 && words[0] == word && rest <= Joined(words[1..]) {
      LongerAhead(word, rest, Joined(words[1..]));
    }
  }

  lemma LongerAhead(word: string, rest: string, more: string)
    requires rest <= more
    ensures word + (['-'] + rest) <= word + (['-'] + more)
  {
    assert more == rest + more[|rest|..];
    assert word + (['-'] + more) == word + (['-'] + rest) + more[|rest|..];
  }
}
