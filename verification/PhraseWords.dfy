/** Phrases are read by their words: letter case and the amount of white space play no part. */
module PhraseWords {
  import opened Strings
  import opened Phrases

  /** The words with one space between any two. */
  function Spaced(words: seq<string>): string {
    if words == [] then ""
    else if |words| == 1 then words[0]
    else words[0] + " " + Spaced(words[1..])
  }

  predicate AllSpace(s: string) {
    forall i :: 0 <= i < |s| ==> IsSpace(s[i])
  }

  // ---- Stripping ---------------------------------------------------------------------------

  lemma {:induction false} LStripSpaces(s: string)
    ensures LStrip(s) == "" <==> AllSpace(s)
    ensures LStrip(s) != "" ==> !IsSpace(LStrip(s)[0])
    ensures Fields(LStrip(s)) == Fields(s)
  {
    if s != "" && IsSpace(s[0]) {
      LStripSpaces(s[1..]);
      assert AllSpace(s[1..]) ==> forall i :: 0 < i < |s| ==> s[i] == s[1..][i - 1];
    }
  }

  lemma {:induction false} RStripSpaces(s: string)
    ensures RStrip(s) == "" <==> AllSpace(s)
  {
    if s != "" && IsSpace(s[|s| - 1]) {
      RStripSpaces(s[..|s| - 1]);
      assert AllSpace(s[..|s| - 1]) ==> forall i :: 0 <= i < |s| - 1 ==> s[i] == s[..|s| - 1][i];
    }
  }

  /** Stripping the end stops at a word. */
  lemma {:induction false} RStripBehind(w: string, r: string)
    requires w != "" && (!IsSpace(w[|w| - 1]) || RStrip(r) != "")
    ensures RStrip(w + r) == w + RStrip(r)
    decreases |r|
  {
    if r == "" {
      assert w + r == w;
    } else if IsSpace(r[|r| - 1]) {
      assert (w + r)[..|w + r| - 1] == w + r[..|r| - 1];
      RStripBehind(w, r[..|r| - 1]);
    }
  }

  // ---- Squeezing ---------------------------------------------------------------------------

  lemma {:induction false} SqueezeWord(w: string, r: string)
    requires forall i :: 0 <= i < |w| ==> !IsSpace(w[i])
    ensures Squeeze(w + r) == w + Squeeze(r)
  {
    if w == "" {
      assert w + r == r;
    } else {
      assert (w + r)[1..] == w[1..] + r;
      SqueezeWord(w[1..], r);
    }
  }

  /** A space more in front of spaces changes nothing; in front of a word it is kept. */
  lemma SqueezeSpace(c: char, r: string)
    requires IsSpace(c) && r != ""
    ensures Squeeze([c] + r) == if IsSpace(r[0]) then Squeeze(r) else " " + Squeeze(r)
  {
    var s := [c] + r;
    assert s[1..] == r;
    assert s[RunLength(s)..] == r[RunLength(r)..];
  }

  lemma SpacedMore(word: string, words: seq<string>)
    requires words != []
    ensures Spaced([word] + words) == word + " " + Spaced(words)
  {
    assert ([word] + words)[1..] == words;
  }

  lemma FirstWord(s: string)
    requires s != "" && !IsSpace(s[0])
    ensures var i := FindSpace(s); i > 0 && Fields(s) == [s[..i]] + Fields(s[i..]) && s == s[..i] + s[i..]
  {
  }

  /** What squeezing leaves of a text whose end is stripped: its words, and a space in front if there was
      one. */
  lemma {:induction false} SqueezedWords(s: string)
    ensures AllSpace(s) ==> RStrip(s) == "" && Fields(s) == []
    ensures !AllSpace(s) ==>
      Fields(s) != [] && Squeeze(RStrip(s)) == (if IsSpace(s[0]) then " " else "") + Spaced(Fields(s))
    decreases |s|
  {
    RStripSpaces(s);
    LStripSpaces(s);
    if AllSpace(s) {
    } else if IsSpace(s[0]) {
      SpaceFirst(s);
    } else {
      WordFirst(s);
    }
  }

  lemma {:induction false} SpaceFirst(s: string)
    requires s != "" && IsSpace(s[0]) && !AllSpace(s)
    ensures Fields(s) != [] && Squeeze(RStrip(s)) == " " + Spaced(Fields(s))
    decreases |s|, 0
  {
    var r := s[1..];
    assert s == [s[0]] + r;
    assert !AllSpace(r);
    SqueezedWords(r);
    SqueezesBehind(s[0], r);
  }

  lemma SqueezesBehind(c: char, r: string)
    requires IsSpace(c) && !AllSpace(r)
    ensures r != ""
    ensures Squeeze(RStrip([c] + r)) == if IsSpace(r[0]) then Squeeze(RStrip(r)) else " " + Squeeze(RStrip(r))
  {
    RStripSpaces(r);
    RStripBehind([c], r);
    RStripFirst(r);
    SqueezeSpace(c, RStrip(r));
  }

  lemma {:induction false} RStripFirst(s: string)
    requires RStrip(s) != ""
    ensures s != "" && RStrip(s)[0] == s[0]
  {
    if s != "" && IsSpace(s[|s| - 1]) {
      RStripFirst(s[..|s| - 1]);
    }
  }

  lemma SqueezesWord(w: string, r: string)
    requires w != "" && forall i :: 0 <= i < |w| ==> !IsSpace(w[i])
    ensures Squeeze(RStrip(w + r)) == w + Squeeze(RStrip(r))
  {
    RStripBehind(w, r);
    SqueezeWord(w, RStrip(r));
  }

  lemma WordAndRest(w: string, words: seq<string>)
    ensures Spaced([w] + words) == if words == [] then w + Squeeze("") else w + (" " + Spaced(words))
  {
    if words != [] {
      SpacedMore(w, words);
    }
  }

  lemma {:induction false} WordFirst(s: string)
    requires s != "" && !IsSpace(s[0])
    ensures Fields(s) != [] && Squeeze(RStrip(s)) == Spaced(Fields(s))
    decreases |s|, 0
  {
    FirstWord(s);
    var w, r := s[..FindSpace(s)], s[FindSpace(s)..];
    SqueezedWords(r);
    SqueezesWord(w, r);
    WordAndRest(w, Fields(r));
    assert !AllSpace(r) ==> IsSpace(r[0]);
  }

  lemma CleanedWords(s: string)
    ensures Squeeze(Strip(s)) == Spaced(Fields(s))
  {
    LStripSpaces(s);
    SqueezedWords(LStrip(s));
  }

  // ---- Letter case -------------------------------------------------------------------------

  lemma {:induction false} LowerLStrip(s: string)
    ensures LStrip(Lower(s)) == Lower(LStrip(s))
  {
    if s != "" && IsSpace(s[0]) {
      LowerLStrip(s[1..]);
    }
  }

  lemma {:induction false} LowerRStrip(s: string)
    ensures RStrip(Lower(s)) == Lower(RStrip(s))
  {
    if s != "" && IsSpace(s[|s| - 1]) {
      var front := s[..|s| - 1];
      LowerRStrip(front);
      assert Lower(s)[..|s| - 1] == Lower(front);
    }
  }

  lemma LowerStrip(s: string)
    ensures Strip(Lower(s)) == Lower(Strip(s))
  {
    LowerLStrip(s);
    LowerRStrip(LStrip(s));
  }

  /** What the parser sees of a phrase is its words in lower case. */
  lemma PhraseByWords(text: string)
    ensures ParsePhrase(text) == ReadLowered(ExpandDays(Spaced(Fields(Lower(text)))))
  {
    LowerStrip(text);
    CleanedWords(Lower(text));
  }

  /** So two phrases of the same words are read alike, however they are spaced and capitalised. */
  lemma WordsDecide(a: string, b: string)
    requires Fields(Lower(a)) == Fields(Lower(b))
    ensures ParsePhrase(a) == ParsePhrase(b)
  {
    PhraseByWords(a);
    PhraseByWords(b);
  }

  // ---- Texts that are spaced once over -----------------------------------------------------

  /** Single spaces, none at either end, and no other white space. */
  predicate OneSpaced(s: string) {
    (forall i :: 0 <= i < |s| && IsSpace(s[i]) ==>
       s[i] == ' ' && 0 < i && i + 1 < |s| && !IsSpace(s[i + 1]))
  }

  lemma {:induction false} SqueezeOnce(s: string)
    requires forall i :: 0 <= i < |s| && IsSpace(s[i]) ==> s[i] == ' ' && i + 1 < |s| && !IsSpace(s[i + 1])
    ensures Squeeze(s) == s
  {
    if s != "" {
      assert IsSpace(s[0]) ==> !IsSpace(s[1]) && RunLength(s[1..]) == 0;
      assert forall i :: 0 <= i < |s[1..]| ==> s[1..][i] == s[i + 1];
      SqueezeOnce(s[1..]);
    }
  }

  lemma SpacedOnce(s: string)
    requires OneSpaced(s)
    ensures Spaced(Fields(s)) == s
  {
    CleanedWords(s);
    if s != "" {
      StripNothing(s);
    }
    SqueezeOnce(s);
  }

  /** A phrase is read as the lower-case text, spaced once over, that has its words. */
  lemma ReadsWords(text: string, canonical: string)
    requires OneSpaced(canonical) && Fields(Lower(text)) == Fields(canonical)
    ensures ParsePhrase(text) == ReadLowered(ExpandDays(canonical))
  {
    PhraseByWords(text);
    SpacedOnce(canonical);
  }
}
