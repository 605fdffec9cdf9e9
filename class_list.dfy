/**
 * `toClassList`: a `class` prop, given as a string or an array of strings,
 * becomes the list of class names `patchClasses` diffs.
 */
module ClassList {
  import opened Wrappers
  import opened Seqs

  /** JavaScript white space and line terminators: what `\s` matches and `trim` removes. */
  const Whitespace: set<char> := {
    '\t', '\n', '\U{000B}', '\U{000C}', '\r', ' ', '\U{00A0}', '\U{1680}',
    '\U{2000}', '\U{2001}', '\U{2002}', '\U{2003}', '\U{2004}', '\U{2005}',
    '\U{2006}', '\U{2007}', '\U{2008}', '\U{2009}', '\U{200A}',
    '\U{2028}', '\U{2029}', '\U{202F}', '\U{205F}', '\U{3000}', '\U{FEFF}'
  }

  predicate IsSpace(c: char)
  {
    c in Whitespace
  }

  predicate NoSpace(s: string)
  {
    forall i :: 0 <= i < |s| ==> !IsSpace(s[i])
  }

  predicate AllSpace(s: string)
  {
    forall i :: 0 <= i < |s| ==> IsSpace(s[i])
  }

  function TrimStart(s: string): (r: string)
    ensures |r| <= |s| && r == s[|s| - |r|..]
    ensures r == [] || !IsSpace(r[0])
    ensures AllSpace(s[..|s| - |r|])
  {
    if s != [] && IsSpace(s[0]) then TrimStart(s[1..]) else s
  }

  function TrimEnd(s: string): (r: string)
    ensures |r| <= |s| && r == s[..|r|]
    ensures r == [] || !IsSpace(r[|r| - 1])
    ensures AllSpace(s[|r|..])
  {
    if s != [] && IsSpace(s[|s| - 1]) then
      var t := s[..|s| - 1];
      var r := TrimEnd(t);
      assert s[..|r|] == t[..|r|];
      assert s[|r|..] == t[|r|..] + [s[|s| - 1]];
      r
    else s
  }

  /** `str.trim()`. */
  function Trim(s: string): string
  {
    TrimEnd(TrimStart(s))
  }

  lemma {:induction false} TrimStartOfSpace(s: string)
    requires AllSpace(s)
    ensures TrimStart(s) == []
  {
    if s != [] {
      TrimStartOfSpace(s[1..]);
    }
  }

  /** A string trims to nothing exactly when it is all white space. */
  lemma TrimEmpty(s: string)
    ensures Trim(s) == [] <==> AllSpace(s)
  {
    var t := TrimStart(s);
    if AllSpace(s) {
      TrimStartOfSpace(s);
    } else {
      TrimStartKeepsWord(s);
      TrimEndOfWordStart(t);
    }
  }

  /** On a string with some non-space character, `TrimStart` stops at a non-space one. */
  lemma {:induction false} TrimStartKeepsWord(s: string)
    requires !AllSpace(s)
    ensures TrimStart(s) != [] && !IsSpace(TrimStart(s)[0])
  {
    var i :| 0 <= i < |s| && !IsSpace(s[i]);
    if IsSpace(s[0]) {
      assert s[1..][i - 1] == s[i];
      TrimStartKeepsWord(s[1..]);
    }
  }

  /** A string starting with a non-space character does not trim to nothing at its end. */
  lemma TrimEndOfWordStart(t: string)
    requires t != [] && !IsSpace(t[0])
    ensures TrimEnd(t) != []
  {
    var r := TrimEnd(t);
    assert t[|r|..] == t || |r| > 0;
    if r == [] {
      assert false;
    }
  }

  /** `isNotBlankOrEmptyString(str)`: `str.trim() !== ''`. */
  predicate NotBlank(s: string)
  {
    Trim(s) != []
  }

  /** The length of the longest prefix of `s` without white space. */
  function WordLength(s: string): (n: nat)
    ensures n <= |s| && NoSpace(s[..n]) && (n == |s| || IsSpace(s[n]))
  {
    if s == [] || IsSpace(s[0]) then 0 else 1 + WordLength(s[1..])
  }

  /** The length of the longest prefix of `s` of white space. */
  function SpaceLength(s: string): (n: nat)
    ensures n <= |s| && AllSpace(s[..n]) && (n == |s| || !IsSpace(s[n]))
  {
    if s == [] || !IsSpace(s[0]) then 0 else 1 + SpaceLength(s[1..])
  }

  /** The concatenation of a list of strings. */
  function Concat(parts: seq<string>): string
  {
    if parts == [] then [] else parts[0] + Concat(parts[1..])
  }

  lemma ConcatPrepend(w: string, parts: seq<string>)
    ensures Concat([w] + parts) == w + Concat(parts)
  {
    assert ([w] + parts)[1..] == parts;
  }

  /**
   * `s.split(/(\s+)/)`: because the separator is captured, the white-space runs
   * are kept, so the pieces alternate word, run, word, …, word, where the first
   * and last words may be empty.
   */
  function SplitKeepingSpace(s: string): (r: seq<string>)
    ensures |r| >= 1
    decreases |s|
  {
    var w := WordLength(s);
    if w == |s| then [s]
    else
      var rest := s[w..];
      var sp := SpaceLength(rest);
      [s[..w], rest[..sp]] + SplitKeepingSpace(rest[sp..])
  }

  /** Words alternate with non-empty white-space runs, starting and ending with a word. */
  predicate Alternating(pieces: seq<string>)
  {
    |pieces| >= 1 && NoSpace(pieces[0]) &&
    (|pieces| == 1 || (|pieces| >= 3 && pieces[1] != [] && AllSpace(pieces[1]) && Alternating(pieces[2..])))
  }

  /** The pieces alternate between words and white-space runs. */
  lemma {:induction false} SplitAlternates(s: string)
    ensures Alternating(SplitKeepingSpace(s))
    decreases |s|
  {
    var w := WordLength(s);
    if w == |s| {
      assert s[..w] == s;
    } else {
      var rest := s[w..];
      var sp := SpaceLength(rest);
      var tail := SplitKeepingSpace(rest[sp..]);
      SplitAlternates(rest[sp..]);
      assert ([s[..w], rest[..sp]] + tail)[2..] == tail;
    }
  }

  lemma ConcatPrepend2(a: string, b: string, tail: seq<string>)
    ensures Concat([a, b] + tail) == a + b + Concat(tail)
  {
    ConcatPrepend(b, tail);
    assert [a, b] + tail == [a] + ([b] + tail);
    ConcatPrepend(a, [b] + tail);
  }

  /** The pieces glue back into `s`. */
  lemma {:induction false} SplitConcat(s: string)
    ensures Concat(SplitKeepingSpace(s)) == s
    decreases |s|
  {
    var w := WordLength(s);
    if w == |s| {
      assert s[..w] == s;
      ConcatPrepend(s, []);
      assert s + [] == s;
    } else {
      var rest := s[w..];
      var sp := SpaceLength(rest);
      SplitConcat(rest[sp..]);
      ConcatPrepend2(s[..w], rest[..sp], SplitKeepingSpace(rest[sp..]));
      SliceThree(s, w, sp);
    }
  }

  /** Every piece is a word or a white-space run. */
  lemma {:induction false} AlternatingMember(pieces: seq<string>, t: string)
    requires Alternating(pieces) && t in pieces
    ensures NoSpace(t) || (t != [] && AllSpace(t))
    decreases |pieces|
  {
    if t != pieces[0] && t != pieces[1] {
      assert pieces == pieces[..2] + pieces[2..];
      AlternatingMember(pieces[2..], t);
    }
  }

  /** The value of a `class` prop; `None` is `undefined`, which defaults to the empty string. */
  datatype ClassValue = ClassString(s: string) | ClassArray(items: seq<string>)

  /** `toClassList(classes)`. */
  function ToClassList(classes: Option<ClassValue>): (r: seq<string>)
    ensures forall i :: 0 <= i < |r| ==> NotBlank(r[i])
  {
    match classes
    case None => Filter(SplitKeepingSpace(""), NotBlank)
    case Some(ClassArray(items)) => Filter(items, NotBlank)
    case Some(ClassString(s)) => Filter(SplitKeepingSpace(s), NotBlank)
  }

  /** `s` without its white space. */
  function RemoveSpace(s: string): (r: string)
  {
    if s == [] then [] else (if IsSpace(s[0]) then [] else [s[0]]) + RemoveSpace(s[1..])
  }

  lemma {:induction false} RemoveSpaceConcat(a: string, b: string)
    ensures RemoveSpace(a + b) == RemoveSpace(a) + RemoveSpace(b)
  {
    if a == [] {
      assert a + b == b;
    } else {
      assert (a + b)[1..] == a[1..] + b;
      RemoveSpaceConcat(a[1..], b);
    }
  }

  lemma {:induction false} RemoveSpaceOfWord(s: string)
    requires NoSpace(s)
    ensures RemoveSpace(s) == s
  {
    if s != [] {
      RemoveSpaceOfWord(s[1..]);
    }
  }

  lemma {:induction false} RemoveSpaceOfSpace(s: string)
    requires AllSpace(s)
    ensures RemoveSpace(s) == []
  {
    if s != [] {
      RemoveSpaceOfSpace(s[1..]);
    }
  }

  /** A word is blank exactly when it is empty; a white-space run is blank. */
  lemma BlankPieces(s: string)
    ensures NoSpace(s) ==> (NotBlank(s) <==> s != [])
    ensures AllSpace(s) ==> !NotBlank(s)
  {
    TrimEmpty(s);
  }

  /** The class names of a string are its words, each non-empty and without white space. */
  lemma ClassNamesAreWords(s: string)
    ensures forall t :: t in ToClassList(Some(ClassString(s))) ==> t != [] && NoSpace(t)
  {
    var pieces := SplitKeepingSpace(s);
    SplitAlternates(s);
    forall t | t in ToClassList(Some(ClassString(s)))
      ensures t != [] && NoSpace(t)
    {
      var k :| 0 <= k < |ToClassList(Some(ClassString(s)))| && ToClassList(Some(ClassString(s)))[k] == t;
      AlternatingMember(pieces, t);
      BlankPieces(t);
    }
  }

  /** A non-empty string without white space. */
  predicate IsWord(s: string)
  {
    s != [] && NoSpace(s)
  }

  /** On words and white-space runs, `NotBlank` keeps exactly the words. */
  lemma NotBlankKeepsWords(pieces: seq<string>)
    requires forall i :: 0 <= i < |pieces| ==> NoSpace(pieces[i]) || (pieces[i] != [] && AllSpace(pieces[i]))
    ensures forall i :: 0 <= i < |pieces| ==> (NotBlank(pieces[i]) <==> IsWord(pieces[i]))
  {
    forall i | 0 <= i < |pieces|
      ensures NotBlank(pieces[i]) <==> IsWord(pieces[i])
    {
      BlankPieces(pieces[i]);
    }
  }

  /** Every piece of an alternating sequence is a word or a white-space run. */
  lemma AlternatingPieces(pieces: seq<string>)
    requires Alternating(pieces)
    ensures forall i :: 0 <= i < |pieces| ==> NoSpace(pieces[i]) || (pieces[i] != [] && AllSpace(pieces[i]))
  {
    forall i | 0 <= i < |pieces|
      ensures NoSpace(pieces[i]) || (pieces[i] != [] && AllSpace(pieces[i]))
    {
      AlternatingMember(pieces, pieces[i]);
    }
  }

  /**
   * Keeping the words of an alternating sequence and gluing them gives the
   * glued pieces without white space; `keep` is any test that picks the words.
   */
  lemma {:induction false} KeptWordsContent(pieces: seq<string>, keep: string -> bool)
    requires Alternating(pieces)
    requires forall i :: 0 <= i < |pieces| ==> (keep(pieces[i]) <==> IsWord(pieces[i]))
    ensures Concat(Filter(pieces, keep)) == RemoveSpace(Concat(pieces))
    decreases |pieces|
  {
    var w := pieces[0];
    assert keep(w) <==> w != [];
    if |pieces| == 1 {
      assert pieces == [w];
      KeptWordSingle(w, keep);
    } else {
      var sp := pieces[1];
      var rest := pieces[2..];
      assert pieces == [w] + ([sp] + rest) by {
        assert pieces == pieces[..2] + pieces[2..];
      }
      assert sp[0] in sp;
      assert !keep(sp);
      forall i | 0 <= i < |rest|
        ensures keep(rest[i]) <==> IsWord(rest[i])
      {
        assert rest[i] == pieces[i + 2];
      }
      KeptWordsContent(rest, keep);
      KeptWordsStep(w, sp, rest, keep);
    }
  }

  lemma KeptWordSingle(w: string, keep: string -> bool)
    requires NoSpace(w) && (keep(w) <==> w != [])
    ensures Concat(Filter([w], keep)) == RemoveSpace(Concat([w]))
  {
    RemoveSpaceOfWord(w);
    ConcatPrepend(w, []);
    assert [w] == [w] + [];
    assert w + [] == w;
    FilterCons(w, [], keep);
    if w != [] {
      ConcatPrepend(w, []);
    }
  }

  lemma KeptWordsStep(w: string, sp: string, rest: seq<string>, keep: string -> bool)
    requires NoSpace(w) && (keep(w) <==> w != [])
    requires AllSpace(sp) && !keep(sp)
    requires Concat(Filter(rest, keep)) == RemoveSpace(Concat(rest))
    ensures Concat(Filter([w] + ([sp] + rest), keep)) == RemoveSpace(Concat([w] + ([sp] + rest)))
  {
    KeptFilterStep(w, sp, rest, keep);
    RemoveSpaceStep(w, sp, rest);
  }

  lemma KeptFilterStep(w: string, sp: string, rest: seq<string>, keep: string -> bool)
    requires keep(w) <==> w != []
    requires !keep(sp)
    ensures Concat(Filter([w] + ([sp] + rest), keep)) == w + Concat(Filter(rest, keep))
  {
    var f := Filter(rest, keep);
    var tail := [sp] + rest;
    FilterCons(sp, rest, keep);
    assert Filter(tail, keep) == f by {
      assert [] + f == f;
    }
    FilterCons(w, tail, keep);
    if w == [] {
      assert Filter([w] + tail, keep) == [] + f;
      assert [] + f == f;
      assert [] + Concat(f) == Concat(f);
    } else {
      assert Filter([w] + tail, keep) == [w] + f;
      ConcatPrepend(w, f);
    }
  }

  lemma RemoveSpaceStep(w: string, sp: string, rest: seq<string>)
    requires NoSpace(w) && AllSpace(sp)
    ensures RemoveSpace(Concat([w] + ([sp] + rest))) == w + RemoveSpace(Concat(rest))
  {
    ConcatPrepend(w, [sp] + rest);
    ConcatPrepend(sp, rest);
    RemoveSpaceOfWord(w);
    RemoveSpaceConcat(w, sp + Concat(rest));
    RemoveSpaceConcat(sp, Concat(rest));
    RemoveSpaceOfSpace(sp);
    assert [] + RemoveSpace(Concat(rest)) == RemoveSpace(Concat(rest));
  }

  /** Gluing the class names of a string back together gives the string without its white space. */
  lemma ClassNamesContent(s: string)
    ensures Concat(ToClassList(Some(ClassString(s)))) == RemoveSpace(s)
  {
    var pieces := SplitKeepingSpace(s);
    SplitAlternates(s);
    SplitConcat(s);
    AlternatingPieces(pieces);
    NotBlankKeepsWords(pieces);
    KeptWordsContent(pieces, NotBlank);
  }

  /** `names.join(" ")`. */
  function Join(names: seq<string>): string
  {
    if names == [] then []
    else if |names| == 1 then names[0]
    else names[0] + " " + Join(names[1..])
  }

  /** The names with a single space between neighbours. */
  function Interleave(names: seq<string>): seq<string>
  {
    if |names| <= 1 then names else [names[0], " "] + Interleave(names[1..])
  }

  /** Splitting the joined names, each non-empty and without white space, gives the names with the single spaces. */
  lemma {:induction false} SplitJoin(names: seq<string>)
    requires |names| >= 1
    requires forall i :: 0 <= i < |names| ==> IsWord(names[i])
    ensures SplitKeepingSpace(Join(names)) == Interleave(names)
  {
    var t := names[0];
    if |names| == 1 {
      WordOfSplit(t, []);
      assert t + [] == t;
    } else {
      var rest := Join(names[1..]);
      JoinStartsWith(names[1..]);
      WordOfSplit(t, " " + rest);
      var s := t + " " + rest;
      assert s == t + (" " + rest);
      assert s[..|t|] == t;
      assert s[|t|..] == " " + rest;
      SpaceOfSplit(rest);
      assert (" " + rest)[1..] == rest;
      assert (" " + rest)[..1] == " ";
      SplitJoin(names[1..]);
    }
  }

  /** Keeping the words of the interleaving gives the names back. */
  lemma {:induction false} KeptWordsInterleave(names: seq<string>, keep: string -> bool)
    requires forall i :: 0 <= i < |names| ==> IsWord(names[i]) && keep(names[i])
    requires !keep(" ")
    ensures Filter(Interleave(names), keep) == names
  {
    if names != [] {
      var t := names[0];
      var more := names[1..];
      assert names == [t] + more;
      if |names| == 1 {
        FilterCons(t, [], keep);
        assert Filter([], keep) == [];
        assert [t] + [] == names;
      } else {
        assert Interleave(names) == [t] + ([" "] + Interleave(more));
        forall i | 0 <= i < |more|
          ensures IsWord(more[i]) && keep(more[i])
        {
          assert more[i] == names[i + 1];
        }
        KeptWordsInterleave(more, keep);
        FilterCons(" ", Interleave(more), keep);
        assert Filter([" "] + Interleave(more), keep) == [] + more;
        assert [] + more == more;
        FilterCons(t, [" "] + Interleave(more), keep);
        assert Filter(Interleave(names), keep) == [t] + more;
      }
    }
  }

  /** Class names without white space, joined by single spaces, split back into the same names. */
  lemma ClassListJoinRoundTrip(names: seq<string>)
    requires forall i :: 0 <= i < |names| ==> IsWord(names[i])
    ensures ToClassList(Some(ClassString(Join(names)))) == names
  {
    if names == [] {
      EmptyClassList();
    } else {
      SplitJoin(names);
      WordsAreNotBlank(names);
      KeptWordsInterleave(names, NotBlank);
    }
  }

  /** The empty string has no class names. */
  lemma EmptyClassList()
    ensures ToClassList(Some(ClassString(""))) == []
  {
    assert SplitKeepingSpace("") == [""] + [];
    BlankPieces("");
    FilterCons("", [], NotBlank);
  }

  lemma WordsAreNotBlank(names: seq<string>)
    requires forall i :: 0 <= i < |names| ==> IsWord(names[i])
    ensures forall i :: 0 <= i < |names| ==> NotBlank(names[i])
    ensures !NotBlank(" ")
  {
    forall i | 0 <= i < |names|
      ensures NotBlank(names[i])
    {
      BlankPieces(names[i]);
    }
    assert AllSpace(" ");
    BlankPieces(" ");
  }

  lemma JoinStartsWith(names: seq<string>)
    requires |names| > 0 && names[0] != []
    ensures Join(names) != [] && Join(names)[0] == names[0][0]
  {
  }

  lemma {:induction false} WordOfSplit(w: string, t: string)
    requires NoSpace(w) && (t == [] || IsSpace(t[0]))
    ensures WordLength(w + t) == |w|
  {
    if w != [] {
      assert (w + t)[1..] == w[1..] + t;
      WordOfSplit(w[1..], t);
    } else {
      assert w + t == t;
    }
  }

  lemma SpaceOfSplit(t: string)
    requires t != [] && !IsSpace(t[0])
    ensures SpaceLength(" " + t) == 1
  {
    assert (" " + t)[1..] == t;
  }
}
