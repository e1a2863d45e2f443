/**
 * The verbosity shaper (`applyVerbosity`): the content is split at every
 * `.`, `!` and `?`, each piece is trimmed and empty pieces are dropped; the
 * "low" level keeps the first fragment, "medium" the first two and every
 * other level all of them, rejoined with ". " and closed with ".".
 */
module Verbosity {
  import opened Text

  predicate IsTerminator(c: char) {
    c == '.' || c == '!' || c == '?'
  }

  predicate NoTerminator(s: string) {
    forall i | 0 <= i < |s| :: !IsTerminator(s[i])
  }

  /** What a kept fragment looks like: non-empty, trimmed, with no sentence
      terminator in it. */
  predicate IsFragment(f: string) {
    f != [] && Trimmed(f) && NoTerminator(f)
  }

  /** `content.split(/[.!?]/)`: the pieces between terminators, an empty
      piece before a leading terminator, between two adjacent ones and after
      a trailing one, and a single empty piece for the empty string. */
  function SplitSentences(s: string): (pieces: seq<string>)
    ensures |pieces| >= 1
    ensures forall i | 0 <= i < |pieces| :: NoTerminator(pieces[i])
  {
    if s == [] then [""]
    else
      var rest := SplitSentences(s[1..]);
      if IsTerminator(s[0]) then [""] + rest
      else [[s[0]] + rest[0]] + rest[1..]
  }

  /** Every terminator of `s` written as '.'. */
  function DotsForTerminators(s: string): (r: string)
    ensures |r| == |s|
    ensures forall i | 0 <= i < |s| :: r[i] == if IsTerminator(s[i]) then '.' else s[i]
  {
    seq(|s|, i requires 0 <= i < |s| => if IsTerminator(s[i]) then '.' else s[i])
  }

  /** The split loses nothing but which terminator stood where: joining the
      pieces with '.' gives back `s` with every terminator written as '.'. */
  lemma {:induction false} SplitThenJoin(s: string)
    ensures Join(SplitSentences(s), ".") == DotsForTerminators(s)
  {
    if s != [] {
      var rest := SplitSentences(s[1..]);
      SplitThenJoin(s[1..]);
      var d := DotsForTerminators(s);
      assert d == [d[0]] + DotsForTerminators(s[1..]);
      if IsTerminator(s[0]) {
        assert SplitSentences(s) == [""] + rest;
      } else {
        var pieces := [[s[0]] + rest[0]] + rest[1..];
        assert SplitSentences(s) == pieces;
        if |rest| == 1 {
          assert Join(pieces, ".") == [s[0]] + rest[0];
        } else {
          assert pieces[1..] == rest[1..];
          assert Join(pieces, ".") == [s[0]] + rest[0] + "." + Join(rest[1..], ".");
        }
      }
    }
  }

  /** `.map((s) => s.trim()).filter(Boolean)`: the pieces trimmed, and the
      ones left empty dropped, in order. */
  function TrimAndDropEmpty(pieces: seq<string>): (r: seq<string>)
    ensures |r| <= |pieces|
    ensures pieces == [] ==> r == []
  {
    if pieces == [] then []
    else
      var t := Trim(pieces[0]);
      (if t == [] then [] else [t]) + TrimAndDropEmpty(pieces[1..])
  }

  /** Pieces without terminators give fragments. */
  lemma {:induction false} TrimAndDropEmptyGivesFragments(pieces: seq<string>)
    requires forall i | 0 <= i < |pieces| :: NoTerminator(pieces[i])
    ensures forall i | 0 <= i < |TrimAndDropEmpty(pieces)| :: IsFragment(TrimAndDropEmpty(pieces)[i])
  {
    if pieces != [] {
      TrimKeepsNoTerminator(pieces[0]);
      TrimAndDropEmptyGivesFragments(pieces[1..]);
    }
  }

  /** Trimming cuts off only white space, so it adds no terminator. */
  lemma TrimKeepsNoTerminator(s: string)
    requires NoTerminator(s)
    ensures NoTerminator(Trim(s))
  {
    var r, k := Trim(s), LeadingSpaces(s);
    TrimIsMiddleSlice(s);
    forall i | 0 <= i < |r| ensures !IsTerminator(r[i]) {
      assert r[i] == s[k + i];
    }
  }

  /** The sentence fragments of `content`, in order. */
  function Fragments(content: string): (fs: seq<string>)
    ensures forall i | 0 <= i < |fs| :: IsFragment(fs[i])
  {
    TrimAndDropEmptyGivesFragments(SplitSentences(content));
    TrimAndDropEmpty(SplitSentences(content))
  }

  function Min(a: nat, b: nat): nat {
    if a < b then a else b
  }

  /** What `sentences[0]` stands for in a string concatenation when there is
      no fragment at all. */
  const Undefined := "undefined"

  /** `applyVerbosity(content, level)`. */
  function Shape(content: string, level: string): (r: string)
    ensures |r| > 0 && r[|r| - 1] == '.'
  {
    var fs := Fragments(content);
    if level == "low" then (if fs == [] then Undefined else fs[0]) + "."
    else if level == "medium" then Join(fs[..Min(2, |fs|)], ". ") + "."
    else Join(fs, ". ") + "."
  }

  // ---- How Fragments treats concatenations ----

  lemma {:induction false} SplitAtTerminator(a: string, c: char, b: string)
    requires IsTerminator(c)
    ensures SplitSentences(a + [c] + b) == SplitSentences(a) + SplitSentences(b)
  {
    var u := a + [c] + b;
    if a == [] {
      assert u[1..] == b;
    } else {
      assert u[1..] == a[1..] + [c] + b;
      SplitAtTerminator(a[1..], c, b);
    }
  }

  lemma {:induction false} SplitOfSentence(f: string)
    requires NoTerminator(f)
    ensures SplitSentences(f) == [f]
  {
    if f != [] {
      SplitOfSentence(f[1..]);
      assert [f[0]] + f[1..] == f;
    }
  }

  /** A single piece comes out trimmed, or not at all when it trims to
      nothing. */
  lemma TrimAndDropEmptyOne(p: string)
    ensures TrimAndDropEmpty([p]) == if Trim(p) == [] then [] else [Trim(p)]
  {
    assert [p][1..] == [];
  }

  /** A text without terminators has at most one fragment: the text
      trimmed at both ends. */
  lemma FragmentsOfPiece(p: string)
    requires NoTerminator(p)
    ensures Fragments(p) == if Trim(p) == [] then [] else [Trim(p)]
  {
    SplitOfSentence(p);
    TrimAndDropEmptyOne(p);
  }

  lemma {:induction false} TrimAndDropEmptyAppend(a: seq<string>, b: seq<string>)
    ensures TrimAndDropEmpty(a + b) == TrimAndDropEmpty(a) + TrimAndDropEmpty(b)
  {
    if a == [] {
      assert a + b == b;
    } else {
      var t := Trim(a[0]);
      var head := if t == [] then [] else [t];
      assert (a + b)[0] == a[0];
      assert (a + b)[1..] == a[1..] + b;
      calc {
        TrimAndDropEmpty(a + b);
        head + TrimAndDropEmpty(a[1..] + b);
        { TrimAndDropEmptyAppend(a[1..], b); }
        head + (TrimAndDropEmpty(a[1..]) + TrimAndDropEmpty(b));
        (head + TrimAndDropEmpty(a[1..])) + TrimAndDropEmpty(b);
      }
    }
  }

  /** A terminator splits the fragments in two. */
  lemma FragmentsAtTerminator(a: string, c: char, b: string)
    requires IsTerminator(c)
    ensures Fragments(a + [c] + b) == Fragments(a) + Fragments(b)
  {
    SplitAtTerminator(a, c, b);
    TrimAndDropEmptyAppend(SplitSentences(a), SplitSentences(b));
  }

  /** A leading white-space character makes no difference to the fragments. */
  lemma FragmentsSkipLeadingSpace(c: char, s: string)
    requires IsSpace(c)
    ensures Fragments([c] + s) == Fragments(s)
  {
    TrimSkipsLeadingSpace(c, SplitSentences(s)[0]);
    FragmentsSkipLeadingChar(c, s);
  }

  lemma FragmentsSkipLeadingChar(c: char, s: string)
    requires !IsTerminator(c)
    requires Trim([c] + SplitSentences(s)[0]) == Trim(SplitSentences(s)[0])
    ensures Fragments([c] + s) == Fragments(s)
  {
    var u := [c] + s;
    assert u[0] == c && u[1..] == s;
    var rest := SplitSentences(s);
    var pieces := [[c] + rest[0]] + rest[1..];
    assert SplitSentences(u) == pieces;
    assert pieces[1..] == rest[1..];
  }

  /** A fragment on its own is its only fragment. */
  lemma FragmentsOfFragment(f: string)
    requires IsFragment(f)
    ensures Fragments(f) == [f]
  {
    SplitOfSentence(f);
    TrimmedIsFixed(f);
    assert TrimAndDropEmpty([f]) == [f] + TrimAndDropEmpty([]);
  }

  lemma FragmentsOfEmpty()
    ensures Fragments("") == []
  {
    assert Trim("") == "";
  }

  /** Fragments joined with ". " and closed with "." split back into the
      same fragments: the inverse of `Fragments` on well-formed input. */
  /** One fragment closed with "." splits back into itself. */
  lemma FragmentsOfClosed(f: string)
    requires IsFragment(f)
    ensures Fragments(f + ".") == [f]
  {
    FragmentsOfFragment(f);
    FragmentsAtTerminator(f, '.', "");
    FragmentsOfEmpty();
    assert f + "." == f + ['.'] + "";
  }

  /** A fragment followed by ". " adds itself in front of the fragments
      of what follows. */
  lemma FragmentsBeforeSentence(f: string, tail: string)
    requires IsFragment(f)
    ensures Fragments(f + ". " + tail) == [f] + Fragments(tail)
  {
    FragmentsOfFragment(f);
    assert f + ". " + tail == f + ['.'] + ([' '] + tail);
    FragmentsAtTerminator(f, '.', [' '] + tail);
    FragmentsSkipLeadingSpace(' ', tail);
  }

  lemma {:induction false} FragmentsOfJoined(fs: seq<string>)
    requires |fs| >= 1
    requires forall i | 0 <= i < |fs| :: IsFragment(fs[i])
    ensures Fragments(Join(fs, ". ") + ".") == fs
  {
    if |fs| == 1 {
      FragmentsOfClosed(fs[0]);
    } else {
      var tail := Join(fs[1..], ". ") + ".";
      FragmentsOfJoined(fs[1..]);
      FragmentsBeforeSentence(fs[0], tail);
      assert Join(fs, ". ") + "." == fs[0] + ". " + tail;
      assert fs == [fs[0]] + fs[1..];
    }
  }

  /** With no fragment at all, "low" reads JavaScript's `undefined` and the
      other levels give a lone period. */
  lemma ShapeWithoutFragments(content: string, level: string)
    requires Fragments(content) == []
    ensures Shape(content, level) == if level == "low" then "undefined." else "."
  {
  }

  /** The fragments `Shape` keeps, in order: the first one at "low" (or
      the placeholder when there is none), the first two at "medium", all of
      them otherwise. */
  function Kept(fs: seq<string>, level: string): (r: seq<string>)
    ensures fs != [] || level != "low" ==> r <= fs
    ensures level == "low" ==> |r| == 1 && (fs == [] ==> r == [Undefined])
    ensures level == "medium" ==> |r| == Min(2, |fs|)
    ensures level != "low" && level != "medium" ==> r == fs
  {
    if level == "low" then (if fs == [] then [Undefined] else fs[..1])
    else if level == "medium" then fs[..Min(2, |fs|)]
    else fs
  }

  /** The shaped text is the kept fragments joined with ". " and closed
      with ".", and splitting it again gives back exactly those fragments. */
  lemma FragmentsOfShape(content: string, level: string)
    ensures Shape(content, level) == Join(Kept(Fragments(content), level), ". ") + "."
    ensures Fragments(Shape(content, level)) == Kept(Fragments(content), level)
  {
    var fs := Fragments(content);
    var kept := Kept(fs, level);
    assert level == "low" && fs != [] ==> kept == [fs[0]];
    if kept == [] {
      assert Join(kept, ". ") + "." == [] + ['.'] + [];
      FragmentsAtTerminator([], '.', []);
      FragmentsOfEmpty();
    } else {
      assert IsFragment(Undefined);
      FragmentsOfJoined(kept);
    }
  }

  /** Splitting the shaped text again gives back an in-order prefix of the
      content's fragments: one fragment for "low", at most two for "medium",
      and all of them for any other level. */
  lemma ShapeKeepsPrefix(content: string, level: string)
    ensures var fs, kept := Fragments(content), Fragments(Shape(content, level));
      && (fs != [] || level != "low" ==> kept <= fs)
      && (level == "low" ==> |kept| == 1)
      && (level == "medium" ==> |kept| == Min(2, |fs|))
      && (level != "low" && level != "medium" ==> kept == fs)
  {
    FragmentsOfShape(content, level);
  }

  lemma KeptIdempotent(fs: seq<string>, level: string)
    ensures Kept(Kept(fs, level), level) == Kept(fs, level)
  {
  }

  /** Shaping twice at the same level changes nothing more. */
  lemma ShapeIdempotent(content: string, level: string)
    ensures Shape(Shape(content, level), level) == Shape(content, level)
  {
    var shaped := Shape(content, level);
    var fs := Fragments(content);
    FragmentsOfShape(content, level);
    FragmentsOfShape(shaped, level);
    KeptIdempotent(fs, level);
    calc {
      Shape(shaped, level);
      Join(Kept(Fragments(shaped), level), ". ") + ".";
      Join(Kept(Kept(fs, level), level), ". ") + ".";
      Join(Kept(fs, level), ". ") + ".";
      shaped;
    }
  }
}
