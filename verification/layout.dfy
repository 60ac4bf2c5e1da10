/** The body-text reconstruction inside `extract_text_and_tables`: words that
    lie inside a table box are dropped, the rest are grouped into lines by
    their `top` coordinate, lines are emitted top to bottom and words left to
    right. Coordinates are exact reals. */
module Layout {
  import opened Seqs
  import opened Sorting
  import opened Text

  /** One entry of `page.extract_words()`. */
  datatype Word = Word(text: string, x0: real, top: real, x1: real, bottom: real)

  /** A table's `bbox` as `(x0, top, x1, bottom)`. */
  datatype BBox = BBox(x0: real, top: real, x1: real, bottom: real)

  predicate Encloses(b: BBox, w: Word)
  {
    w.x0 >= b.x0 && w.x1 <= b.x1 && w.top >= b.top && w.bottom <= b.bottom
  }

  predicate InsideTable(w: Word, boxes: seq<BBox>)
  {
    exists i :: 0 <= i < |boxes| && Encloses(boxes[i], w)
  }

  /** The words kept as body text, in extraction order. */
  function OutsideWords(words: seq<Word>, boxes: seq<BBox>): (r: seq<Word>)
    ensures |r| <= |words|
    ensures forall w :: w in r <==> w in words && !InsideTable(w, boxes)
  {
    Filter(words, w => !InsideTable(w, boxes))
  }

  /** `abs(a - b) < 3`: the line-grouping tolerance. */
  predicate Near(a: real, b: real)
  {
    a - b < 3.0 && b - a < 3.0
  }

  /** An entry of the `lines` dict: its key and its words in arrival order. */
  datatype Line = Line(key: real, words: seq<Word>)

  /** Index of the first line (in dict insertion order) whose key is near `t`,
      or the number of lines when there is none. */
  function FirstNear(lines: seq<Line>, t: real): (i: nat)
    ensures i <= |lines|
    ensures forall j :: 0 <= j < i ==> !Near(lines[j].key, t)
    ensures i < |lines| ==> Near(lines[i].key, t)
  {
    if |lines| == 0 then 0
    else if Near(lines[0].key, t) then 0
    else 1 + FirstNear(lines[1..], t)
  }

  /** One turn of the grouping loop. */
  function PlaceWord(lines: seq<Line>, w: Word): seq<Line>
  {
    var i := FirstNear(lines, w.top);
    if i < |lines| then lines[i := Line(lines[i].key, lines[i].words + [w])]
    else lines + [Line(w.top, [w])]
  }

  /** The grouping loop over all outside words. */
  function GroupLines(ws: seq<Word>): seq<Line>
  {
    if |ws| == 0 then [] else PlaceWord(GroupLines(ws[..|ws| - 1]), ws[|ws| - 1])
  }

  function WordsOf(l: Line): seq<Word>
  {
    l.words
  }

  /** Line keys are pairwise at least 3 apart. */
  ghost predicate Separated(lines: seq<Line>)
  {
    forall i, j :: 0 <= i < j < |lines| ==> !Near(lines[i].key, lines[j].key)
  }

  /** Every word sits within the tolerance of its line's key, and no line is empty. */
  ghost predicate Banded(lines: seq<Line>)
  {
    forall i :: 0 <= i < |lines| ==>
      |lines[i].words| > 0 && forall k :: 0 <= k < |lines[i].words| ==> Near(lines[i].words[k].top, lines[i].key)
  }

  /** The word joins the first line near it and no other; a new line, keyed
      by the word's own `top`, opens only when no key is near. */
  lemma PlaceWordFirstNear(lines: seq<Line>, w: Word)
    ensures var r := PlaceWord(lines, w); var i := FirstNear(lines, w.top);
      && (forall j :: 0 <= j < |lines| ==> r[j].key == lines[j].key)
      && (forall j :: 0 <= j < |lines| && j != i ==> r[j] == lines[j])
      && (i < |lines| ==> |r| == |lines| && r[i].words == lines[i].words + [w])
      && (i == |lines| ==> (|r| == |lines| + 1 && r[i] == Line(w.top, [w])
                            && forall j :: 0 <= j < |lines| ==> !Near(lines[j].key, w.top)))
  {
  }

  /** Placing a word keeps the keys separated and every word within the tolerance of its key. */
  lemma PlaceWordKeepsShape(lines: seq<Line>, w: Word)
    requires Separated(lines) && Banded(lines)
    ensures Separated(PlaceWord(lines, w)) && Banded(PlaceWord(lines, w))
  {
    var i := FirstNear(lines, w.top);
    var r := PlaceWord(lines, w);
    PlaceWordFirstNear(lines, w);
    forall a, b | 0 <= a < b < |r| ensures !Near(r[a].key, r[b].key) {
      if b < |lines| {
        assert r[a].key == lines[a].key && r[b].key == lines[b].key;
      } else {
        assert r[a].key == lines[a].key && r[b].key == w.top;
      }
    }
    forall a | 0 <= a < |r|
      ensures |r[a].words| > 0 && forall k :: 0 <= k < |r[a].words| ==> Near(r[a].words[k].top, r[a].key)
    {
      if a == i && i < |lines| {
        var ws := lines[i].words + [w];
        assert r[a].words == ws && r[a].key == lines[i].key;
        forall k | 0 <= k < |ws| ensures Near(ws[k].top, lines[i].key) {
          if k < |lines[i].words| {
            assert ws[k] == lines[i].words[k];
          }
        }
      } else if a < |lines| {
        assert r[a] == lines[a];
      }
    }
  }

  /** Placing a word adds exactly that word to the lines' words. */
  lemma PlaceWordAddsWord(lines: seq<Line>, w: Word)
    ensures multiset(FlatMap(PlaceWord(lines, w), WordsOf)) == multiset(FlatMap(lines, WordsOf)) + multiset{w}
  {
    var i := FirstNear(lines, w.top);
    var r := PlaceWord(lines, w);
    if i < |lines| {
      FlatMapSplit(lines, i, WordsOf);
      FlatMapSplit(r, i, WordsOf);
      assert r[..i] == lines[..i] && r[i + 1..] == lines[i + 1..];
      assert WordsOf(r[i]) == WordsOf(lines[i]) + [w];
    } else {
      FlatMapAppend(lines, [Line(w.top, [w])], WordsOf);
      assert FlatMap([Line(w.top, [w])], WordsOf) == [w];
    }
  }

  /** The grouping loop leaves separated keys, words within tolerance of their
      key, and every outside word in exactly one line. */
  lemma {:induction false} GroupLinesShape(ws: seq<Word>)
    ensures Separated(GroupLines(ws)) && Banded(GroupLines(ws))
    ensures multiset(FlatMap(GroupLines(ws), WordsOf)) == multiset(ws)
  {
    if |ws| > 0 {
      var init := ws[..|ws| - 1];
      GroupLinesShape(init);
      PlaceWordKeepsShape(GroupLines(init), ws[|ws| - 1]);
      PlaceWordAddsWord(GroupLines(init), ws[|ws| - 1]);
      SplitLast(ws);
    }
  }

  const Below: (real, real) -> bool := (a: real, b: real) => a < b

  lemma BelowOrder()
    ensures StrictTotalOrder(Below)
  {
  }

  function KeyOf(l: Line): real
  {
    l.key
  }

  function X0(w: Word): real
  {
    w.x0
  }

  /** `line_words.sort(key=lambda w: w['x0'])` */
  function SortLine(l: Line): Line
  {
    BelowOrder();
    Line(l.key, SortBy(l.words, X0, Below))
  }

  /** `sorted(lines.items(), key=lambda x: x[0])`, each line's words sorted by `x0`. */
  function OrderLines(lines: seq<Line>): seq<Line>
  {
    BelowOrder();
    var ordered := SortBy(lines, KeyOf, Below);
    seq(|ordered|, i requires 0 <= i < |ordered| => SortLine(ordered[i]))
  }

  /** The page's lines, ready to be rendered. */
  function PageLines(words: seq<Word>, boxes: seq<BBox>): seq<Line>
  {
    OrderLines(GroupLines(OutsideWords(words, boxes)))
  }

  lemma SortedLinesAscend(lines: seq<Line>, o: seq<Line>)
    requires Separated(lines)
    requires multiset(o) == multiset(lines) && SortedBy(o, KeyOf, Below)
    ensures forall i, j :: 0 <= i < j < |o| ==> o[i].key + 3.0 <= o[j].key
  {
    assert forall i, j :: 0 <= i < j < |lines| ==> lines[i] != lines[j];
    PermKeepsDistinct(lines, o);
    forall i, j | 0 <= i < j < |o| ensures o[i].key + 3.0 <= o[j].key {
      assert o[i] in multiset(lines) && o[j] in multiset(lines);
      var p :| 0 <= p < |lines| && lines[p] == o[i];
      var q :| 0 <= q < |lines| && lines[q] == o[j];
      assert !Near(lines[p].key, lines[q].key) by {
        if p < q {
        } else {
          assert q < p;
        }
      }
    }
  }

  lemma SortLinesWords(o: seq<Line>, r: seq<Line>)
    requires |r| == |o| && forall i :: 0 <= i < |o| ==> r[i] == SortLine(o[i])
    ensures multiset(FlatMap(r, WordsOf)) == multiset(FlatMap(o, WordsOf))
    ensures forall i :: 0 <= i < |r| ==> SortedBy(r[i].words, X0, Below) && r[i].key == o[i].key
  {
    BelowOrder();
    FlatMapPointwise(r, o, WordsOf);
  }

  lemma SortLinesBanded(lines: seq<Line>, o: seq<Line>, r: seq<Line>)
    requires Banded(lines) && multiset(o) == multiset(lines)
    requires |r| == |o| && forall i :: 0 <= i < |o| ==> r[i] == SortLine(o[i])
    ensures Banded(r)
  {
    BelowOrder();
    forall i | 0 <= i < |r|
      ensures |r[i].words| > 0 && forall k :: 0 <= k < |r[i].words| ==> Near(r[i].words[k].top, r[i].key)
    {
      assert o[i] in multiset(lines);
      forall k | 0 <= k < |r[i].words| ensures Near(r[i].words[k].top, r[i].key) {
        assert r[i].words[k] in multiset(o[i].words);
      }
    }
  }

  lemma OrderLinesShape(lines: seq<Line>)
    requires Separated(lines) && Banded(lines)
    ensures var r := OrderLines(lines);
      && (forall i, j :: 0 <= i < j < |r| ==> r[i].key + 3.0 <= r[j].key)
      && (forall i :: 0 <= i < |r| ==> SortedBy(r[i].words, X0, Below))
      && Banded(r)
      && multiset(FlatMap(r, WordsOf)) == multiset(FlatMap(lines, WordsOf))
  {
    BelowOrder();
    var o := SortBy(lines, KeyOf, Below);
    var r := OrderLines(lines);
    SortedLinesAscend(lines, o);
    SortLinesWords(o, r);
    forall i, j | 0 <= i < j < |r| ensures r[i].key + 3.0 <= r[j].key {
      assert r[i].key == o[i].key && r[j].key == o[j].key;
    }
    FlatMapPerm(o, lines, WordsOf);
    SortLinesBanded(lines, o, r);
  }

  /** The reconstructed page: lines strictly top to bottom with keys at least
      3 apart, each line's words left to right and within the tolerance of
      its key, and together exactly the words outside every table. */
  lemma PageLinesShape(words: seq<Word>, boxes: seq<BBox>)
    ensures var r := PageLines(words, boxes);
      && (forall i, j :: 0 <= i < j < |r| ==> r[i].key + 3.0 <= r[j].key)
      && (forall i :: 0 <= i < |r| ==> SortedBy(r[i].words, X0, Below))
      && Banded(r)
      && multiset(FlatMap(r, WordsOf)) == multiset(OutsideWords(words, boxes))
  {
    GroupLinesShape(OutsideWords(words, boxes));
    OrderLinesShape(GroupLines(OutsideWords(words, boxes)));
  }

  function Texts(ws: seq<Word>): (r: seq<string>)
    ensures |r| == |ws|
  {
    seq(|ws|, i requires 0 <= i < |ws| => ws[i].text)
  }

  /** `" ".join(w['text'] for w in line_words) + "\n"` */
  function LineText(l: Line): string
  {
    Join(" ", Texts(l.words)) + "\n"
  }

  /** The accumulated `outside_text`. */
  function RenderLines(lines: seq<Line>): string
  {
    FlatMap(lines, LineText)
  }

  /** When no word carries a line break, the text has exactly one line per line group. */
  lemma {:induction false} RenderLinesCount(lines: seq<Line>)
    requires forall i, k :: 0 <= i < |lines| && 0 <= k < |lines[i].words| ==> CountChar('\n', lines[i].words[k].text) == 0
    ensures CountChar('\n', RenderLines(lines)) == |lines|
  {
    if |lines| > 0 {
      RenderLinesCount(lines[1..]);
      var ts := Texts(lines[0].words);
      JoinCount('\n', " ", ts);
      CountCharAppend('\n', Join(" ", ts), "\n");
      CountCharAppend('\n', LineText(lines[0]), RenderLines(lines[1..]));
    }
  }

  /** The body text of one page. */
  function OutsideText(words: seq<Word>, boxes: seq<BBox>): string
  {
    RenderLines(PageLines(words, boxes))
  }
}
