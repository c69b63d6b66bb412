/**
 * Flattening a document's line items into the three parallel lists
 * `tokens`, `bboxes` and `ner_tags`, skipping words with empty text.
 */
module Extraction {
  import opened PyStrings
  import opened Annotation

  /** The three lists that are built side by side. */
  datatype Tokens = Tokens(tokens: seq<string>, bboxes: seq<seq<int>>, nerTags: seq<string>)

  const NoTokens := Tokens([], [], [])

  predicate Aligned(t: Tokens) {
    |t.tokens| == |t.bboxes| == |t.nerTags|
  }

  /** The box kept for a word: its first and third corners only. */
  function Box(q: Quad): (b: seq<int>)
    ensures |b| == 4
  {
    [q.x1, q.y1, q.x3, q.y3]
  }

  function Append(t: Tokens, u: Tokens): Tokens {
    Tokens(t.tokens + u.tokens, t.bboxes + u.bboxes, t.nerTags + u.nerTags)
  }

  /** What the words of one line item contribute, in word order. */
  function ExtractWords(category: string, words: seq<Word>): (r: Tokens)
    ensures Aligned(r) && |r.tokens| <= |words|
    ensures forall k :: 0 <= k < |r.tokens| ==> |r.tokens[k]| > 0 && |r.bboxes[k]| == 4 && r.nerTags[k] == category
  {
    if words == [] then NoTokens
    else
      var r := ExtractWords(category, words[..|words| - 1]);
      var w := words[|words| - 1];
      if |w.text| < 1 then r
      else Tokens(r.tokens + [w.text], r.bboxes + [Box(w.quad)], r.nerTags + [category])
  }

  /** What a sequence of line items contributes, in line-item order. */
  function Extract(lines: seq<LineItem>): (r: Tokens)
    ensures Aligned(r)
    ensures forall k :: 0 <= k < |r.tokens| ==> |r.tokens[k]| > 0 && |r.bboxes[k]| == 4
  {
    if lines == [] then NoTokens
    else
      var last := lines[|lines| - 1];
      Append(Extract(lines[..|lines| - 1]), ExtractWords(last.category, last.words))
  }

  /**
   * The outer loop over "valid_line": each line item's words are appended
   * in turn.
   */
  method ExtractTokens(lines: seq<LineItem>) returns (tokens: seq<string>, bboxes: seq<seq<int>>, nerTags: seq<string>)
    ensures Tokens(tokens, bboxes, nerTags) == Extract(lines)
  {
    tokens, bboxes, nerTags := [], [], [];
    var i := 0;
    while i < |lines|
      invariant 0 <= i <= |lines|
      invariant Tokens(tokens, bboxes, nerTags) == Extract(lines[..i])
    {
      tokens, bboxes, nerTags := ExtractLineItem(tokens, bboxes, nerTags, lines[i]);
      assert lines[..i + 1][..i] == lines[..i];
      i := i + 1;
    }
    assert lines[..i] == lines;
  }

  /**
   * The inner loop over one line item's "words": every word with non-empty
   * text appends its text, its box and the line item's category.
   */
  method ExtractLineItem(tokens0: seq<string>, bboxes0: seq<seq<int>>, nerTags0: seq<string>, item: LineItem)
    returns (tokens: seq<string>, bboxes: seq<seq<int>>, nerTags: seq<string>)
    ensures Tokens(tokens, bboxes, nerTags) == Append(Tokens(tokens0, bboxes0, nerTags0), ExtractWords(item.category, item.words))
  {
    tokens, bboxes, nerTags := tokens0, bboxes0, nerTags0;
    var j := 0;
    while j < |item.words|
      invariant 0 <= j <= |item.words|
      invariant Tokens(tokens, bboxes, nerTags) == Append(Tokens(tokens0, bboxes0, nerTags0), ExtractWords(item.category, item.words[..j]))
    {
      var word := item.words[j];
      var txt := word.text;
      var box := [word.quad.x1, word.quad.y1, word.quad.x3, word.quad.y3];
      assert item.words[..j + 1][..j] == item.words[..j];
      j := j + 1;
      if |txt| < 1 {
        continue;
      }
      tokens := tokens + [txt];
      bboxes := bboxes + [box];
      nerTags := nerTags + [item.category];
    }
    assert item.words[..j] == item.words;
  }

  // ---------------------------------------------------------------------
  // A reference description: the kept words, flattened
  // ---------------------------------------------------------------------

  /** A word together with the category of the line item that holds it. */
  datatype Tagged = Tagged(category: string, word: Word)

  function Tag(category: string, words: seq<Word>): (r: seq<Tagged>)
    ensures |r| == |words| && forall k :: 0 <= k < |r| ==> r[k] == Tagged(category, words[k])
  {
    if words == [] then []
    else Tag(category, words[..|words| - 1]) + [Tagged(category, words[|words| - 1])]
  }

  /** Every word of every line item, in document order. */
  function Flatten(lines: seq<LineItem>): seq<Tagged> {
    if lines == [] then []
    else
      var last := lines[|lines| - 1];
      Flatten(lines[..|lines| - 1]) + Tag(last.category, last.words)
  }

  /** The tagged words whose text is not empty, in their original order. */
  function Kept(ts: seq<Tagged>): seq<Tagged> {
    if ts == [] then []
    else if |ts[0].word.text| > 0 then [ts[0]] + Kept(ts[1..])
    else Kept(ts[1..])
  }

  function KeptWords(lines: seq<LineItem>): seq<Tagged> {
    Kept(Flatten(lines))
  }

  lemma {:induction false} KeptAppend(a: seq<Tagged>, b: seq<Tagged>)
    ensures Kept(a + b) == Kept(a) + Kept(b)
  {
    if a == [] {
      assert a + b == b;
    } else {
      var ab := a + b;
      assert ab[0] == a[0] && ab[1..] == a[1..] + b;
      KeptAppend(a[1..], b);
      if |a[0].word.text| > 0 {
        assert Kept(ab) == [a[0]] + (Kept(a[1..]) + Kept(b));
        Associates([a[0]], Kept(a[1..]), Kept(b));
      } else {
        assert Kept(ab) == Kept(a[1..]) + Kept(b);
      }
    }
  }

  /** What one tagged word contributes. */
  function Single(t: Tagged): Tokens {
    Tokens([t.word.text], [Box(t.word.quad)], [t.category])
  }

  /** The text, box and category of each tagged word, in order. */
  function Project(ts: seq<Tagged>): (r: Tokens)
    ensures Aligned(r) && |r.tokens| == |ts|
  {
    if ts == [] then NoTokens else Append(Project(ts[..|ts| - 1]), Single(ts[|ts| - 1]))
  }

  /** Position k of the projection holds the text, box and category of word k. */
  lemma {:induction false} ProjectAt(ts: seq<Tagged>, k: int)
    requires 0 <= k < |ts|
    ensures var r := Project(ts);
      r.tokens[k] == ts[k].word.text && r.bboxes[k] == Box(ts[k].word.quad) && r.nerTags[k] == ts[k].category
  {
    var n := |ts| - 1;
    if k < n {
      ProjectAt(ts[..n], k);
    }
  }

  lemma {:induction false} ProjectAppend(a: seq<Tagged>, b: seq<Tagged>)
    ensures Project(a + b) == Append(Project(a), Project(b))
  {
    if b == [] {
      assert a + b == a;
    } else {
      var n := |b| - 1;
      assert (a + b)[..|a + b| - 1] == a + b[..n] && (a + b)[|a + b| - 1] == b[n];
      ProjectAppend(a, b[..n]);
      AppendAssociative(Project(a), Project(b[..n]), Single(b[n]));
    }
  }

  lemma KeptSnoc(ts: seq<Tagged>, t: Tagged)
    ensures Kept(ts + [t]) == Kept(ts) + (if |t.word.text| > 0 then [t] else [])
  {
    KeptAppend(ts, [t]);
    assert [t][1..] == [];
  }

  lemma ProjectSnoc(ts: seq<Tagged>, t: Tagged)
    ensures Project(ts + [t]) == Append(Project(ts), Single(t))
  {
    assert (ts + [t])[..|ts|] == ts;
  }

  lemma {:induction false} ExtractWordsIsProjectOfKept(category: string, words: seq<Word>)
    ensures ExtractWords(category, words) == Project(Kept(Tag(category, words)))
  {
    if words != [] {
      var n := |words| - 1;
      var t := Tagged(category, words[n]);
      ExtractWordsIsProjectOfKept(category, words[..n]);
      var before := Kept(Tag(category, words[..n]));
      KeptSnoc(Tag(category, words[..n]), t);
      if |words[n].text| > 0 {
        ProjectSnoc(before, t);
      } else {
        assert before + [] == before;
      }
    }
  }

  lemma {:induction false} ExtractIsProjectOfKept(lines: seq<LineItem>)
    ensures Extract(lines) == Project(KeptWords(lines))
  {
    if lines != [] {
      var n := |lines| - 1;
      ExtractIsProjectOfKept(lines[..n]);
      ExtractWordsIsProjectOfKept(lines[n].category, lines[n].words);
      KeptAppend(Flatten(lines[..n]), Tag(lines[n].category, lines[n].words));
      ProjectAppend(Kept(Flatten(lines[..n])), Kept(Tag(lines[n].category, lines[n].words)));
    }
  }

  /**
   * The k-th token, box and tag all come from the k-th kept word: its text,
   * its corners (x1, y1) and (x3, y3), and its line item's category.
   */
  lemma ExtractFollowsKeptWords(lines: seq<LineItem>)
    ensures var r, kept := Extract(lines), KeptWords(lines);
      && |r.tokens| == |r.bboxes| == |r.nerTags| == |kept|
      && forall k :: 0 <= k < |kept| ==>
           && r.tokens[k] == kept[k].word.text
           && r.bboxes[k] == [kept[k].word.quad.x1, kept[k].word.quad.y1, kept[k].word.quad.x3, kept[k].word.quad.y3]
           && r.nerTags[k] == kept[k].category
  {
    ExtractIsProjectOfKept(lines);
    var kept := KeptWords(lines);
    forall k | 0 <= k < |kept|
      ensures Project(kept).tokens[k] == kept[k].word.text
      ensures Project(kept).bboxes[k] == Box(kept[k].word.quad)
      ensures Project(kept).nerTags[k] == kept[k].category
    {
      ProjectAt(kept, k);
    }
  }

  lemma {:induction false} KeptMembership(ts: seq<Tagged>, t: Tagged)
    ensures t in Kept(ts) <==> t in ts && |t.word.text| > 0
  {
    if ts != [] {
      KeptMembership(ts[1..], t);
      assert ts == [ts[0]] + ts[1..];
    }
  }

  lemma TagMembership(category: string, words: seq<Word>, t: Tagged)
    ensures t in Tag(category, words) <==> t.category == category && t.word in words
  {
    if t.category == category && t.word in words {
      var k :| 0 <= k < |words| && words[k] == t.word;
      assert Tag(category, words)[k] == t;
    }
  }

  lemma {:induction false} FlattenMembership(lines: seq<LineItem>, t: Tagged)
    ensures t in Flatten(lines) <==> exists i :: 0 <= i < |lines| && lines[i].category == t.category && t.word in lines[i].words
  {
    if lines != [] {
      var n := |lines| - 1;
      FlattenMembership(lines[..n], t);
      TagMembership(lines[n].category, lines[n].words, t);
      if t in Flatten(lines) && !(t in Flatten(lines[..n])) {
        assert lines[n].category == t.category && t.word in lines[n].words;
      }
      if exists i :: 0 <= i < |lines| && lines[i].category == t.category && t.word in lines[i].words {
        var i :| 0 <= i < |lines| && lines[i].category == t.category && t.word in lines[i].words;
        if i < n {
          assert lines[..n][i] == lines[i];
        }
      }
    }
  }

  /**
   * A word becomes a token, tagged with a category, exactly when its text is
   * non-empty and it is a word of a line item with that category.
   */
  lemma KeptWordsMembership(lines: seq<LineItem>, category: string, w: Word)
    ensures Tagged(category, w) in KeptWords(lines) <==>
      |w.text| > 0 && exists i :: 0 <= i < |lines| && lines[i].category == category && w in lines[i].words
  {
    KeptMembership(Flatten(lines), Tagged(category, w));
    FlattenMembership(lines, Tagged(category, w));
  }

  lemma AppendAssociative(t: Tokens, u: Tokens, v: Tokens)
    ensures Append(Append(t, u), v) == Append(t, Append(u, v))
  {
    assert t.tokens + u.tokens + v.tokens == t.tokens + (u.tokens + v.tokens);
    assert t.bboxes + u.bboxes + v.bboxes == t.bboxes + (u.bboxes + v.bboxes);
    assert t.nerTags + u.nerTags + v.nerTags == t.nerTags + (u.nerTags + v.nerTags);
  }

  lemma ExtractSnoc(lines: seq<LineItem>, item: LineItem)
    ensures Extract(lines + [item]) == Append(Extract(lines), ExtractWords(item.category, item.words))
  {
    assert (lines + [item])[..|lines|] == lines;
  }

  /** Consecutive runs of line items contribute consecutive runs of the lists. */
  lemma {:induction false} ExtractAppend(a: seq<LineItem>, b: seq<LineItem>)
    ensures Extract(a + b) == Append(Extract(a), Extract(b))
    decreases |b|
  {
    if b == [] {
      assert a + b == a;
    } else {
      var n := |b| - 1;
      assert a + b == (a + b[..n]) + [b[n]];
      assert b == b[..n] + [b[n]];
      var w := ExtractWords(b[n].category, b[n].words);
      calc {
        Extract(a + b);
        { ExtractSnoc(a + b[..n], b[n]); }
        Append(Extract(a + b[..n]), w);
        { ExtractAppend(a, b[..n]); }
        Append(Append(Extract(a), Extract(b[..n])), w);
        { AppendAssociative(Extract(a), Extract(b[..n]), w); }
        Append(Extract(a), Append(Extract(b[..n]), w));
        { ExtractSnoc(b[..n], b[n]); }
        Append(Extract(a), Extract(b));
      }
    }
  }

  // ---------------------------------------------------------------------
  // What extraction ignores
  // ---------------------------------------------------------------------

  function NonEmptyWords(words: seq<Word>): (r: seq<Word>)
    ensures forall w :: w in r <==> w in words && |w.text| > 0
  {
    if words == [] then []
    else
      var rest := NonEmptyWords(words[..|words| - 1]);
      var w := words[|words| - 1];
      if |w.text| > 0 then rest + [w] else rest
  }

  function DropEmptyWords(lines: seq<LineItem>): (r: seq<LineItem>)
    ensures |r| == |lines|
  {
    seq(|lines|, i requires 0 <= i < |lines| => LineItem(lines[i].category, NonEmptyWords(lines[i].words)))
  }

  lemma {:induction false} ExtractWordsOfNonEmpty(category: string, words: seq<Word>)
    ensures ExtractWords(category, NonEmptyWords(words)) == ExtractWords(category, words)
  {
    if words != [] {
      var n := |words| - 1;
      ExtractWordsOfNonEmpty(category, words[..n]);
      var rest := NonEmptyWords(words[..n]);
      if |words[n].text| > 0 {
        assert (rest + [words[n]])[..|rest|] == rest;
      }
    }
  }

  /** Removing every word with empty text changes none of the three lists. */
  lemma {:induction false} EmptyWordsContributeNothing(lines: seq<LineItem>)
    ensures Extract(DropEmptyWords(lines)) == Extract(lines)
  {
    if lines != [] {
      var n := |lines| - 1;
      assert DropEmptyWords(lines)[..n] == DropEmptyWords(lines[..n]);
      EmptyWordsContributeNothing(lines[..n]);
      ExtractWordsOfNonEmpty(lines[n].category, lines[n].words);
    }
  }

  /** Two words that differ at most in corners 2 and 4 of their quads. */
  predicate SameButUnusedCorners(v: Word, w: Word) {
    && v.text == w.text
    && v.quad.x1 == w.quad.x1 && v.quad.y1 == w.quad.y1
    && v.quad.x3 == w.quad.x3 && v.quad.y3 == w.quad.y3
  }

  predicate SameWordsButUnusedCorners(vs: seq<Word>, ws: seq<Word>) {
    |vs| == |ws| && forall j :: 0 <= j < |vs| ==> SameButUnusedCorners(vs[j], ws[j])
  }

  predicate SameLinesButUnusedCorners(a: seq<LineItem>, b: seq<LineItem>) {
    && |a| == |b|
    && forall i :: 0 <= i < |a| ==>
         a[i].category == b[i].category && SameWordsButUnusedCorners(a[i].words, b[i].words)
  }

  lemma {:induction false} ExtractWordsIgnoresUnusedCorners(category: string, vs: seq<Word>, ws: seq<Word>)
    requires SameWordsButUnusedCorners(vs, ws)
    ensures ExtractWords(category, vs) == ExtractWords(category, ws)
  {
    if vs != [] {
      var n := |vs| - 1;
      assert SameButUnusedCorners(vs[n], ws[n]);
      ExtractWordsIgnoresUnusedCorners(category, vs[..n], ws[..n]);
    }
  }

  /** The corners (x2, y2) and (x4, y4) of a word's quad are never read. */
  lemma {:induction false} ExtractIgnoresUnusedCorners(a: seq<LineItem>, b: seq<LineItem>)
    requires SameLinesButUnusedCorners(a, b)
    ensures Extract(a) == Extract(b)
  {
    if a != [] {
      var n := |a| - 1;
      ExtractIgnoresUnusedCorners(a[..n], b[..n]);
      ExtractWordsIgnoresUnusedCorners(a[n].category, a[n].words, b[n].words);
    }
  }
}
