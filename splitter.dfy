/** The two quote-aware splitters of src/json_reader.rs:
    `split_preserving_quotes` cuts its input into words at whitespace, and
    `split_on_commas_preserving_quotes` cuts it into trimmed items at commas;
    both ignore the cut character inside a region opened by `'` or `"` and
    closed by the same character.

    Both are specified by `Pieces`: the input cut at every separator, that
    is at every cut character met outside quotes, keeping empty pieces. The
    words are the non-empty pieces; the items are the non-empty pieces,
    trimmed. Positions are indices into the character sequence. */
module Splitter {
  import opened JsonValues
  import opened Lexemes

  /** Which character a splitter cuts at. */
  datatype Cut = AtWhitespace | AtComma

  predicate IsCut(cut: Cut, c: char)
  {
    match cut
    case AtWhitespace => IsWhitespace(c)
    case AtComma => c == ','
  }

  /** The splitters' `in_quotes` and `quote_char`. */
  datatype QuoteState = Outside | Inside(quote: char)

  /** How one character changes the quote state: outside, a quote opens a
      region; inside, only the same quote closes it. */
  function Step(st: QuoteState, c: char): QuoteState
  {
    match st
    case Outside => if IsQuote(c) then Inside(c) else Outside
    case Inside(q) => if c == q then Outside else st
  }

  /** The quote state once all of `s` has been read. */
  function QuoteStateAfter(s: string): QuoteState
  {
    if s == [] then Outside else Step(QuoteStateAfter(s[..|s| - 1]), s[|s| - 1])
  }

  /** Position `i` of `s` holds a cut character outside quotes. */
  predicate SeparatesAt(s: string, i: nat, cut: Cut)
    requires i < |s|
  {
    QuoteStateAfter(s[..i]) == Outside && IsCut(cut, s[i])
  }

  /** `s` cut at every separator; the separators themselves are dropped and
      empty pieces are kept. */
  function Pieces(s: string, cut: Cut): (ps: seq<string>)
    ensures |ps| >= 1
    ensures forall k :: 0 <= k < |ps| ==> |ps[k]| <= |s|
  {
    if s == [] then [[]]
    else
      var ps := Pieces(s[..|s| - 1], cut);
      if SeparatesAt(s, |s| - 1, cut) then ps + [[]]
      else ps[..|ps| - 1] + [ps[|ps| - 1] + [s[|s| - 1]]]
  }

  /** The separator positions of `s`, in the order they occur. */
  function Cuts(s: string, cut: Cut): (cs: seq<nat>)
    ensures forall k :: 0 <= k < |cs| ==> cs[k] < |s|
  {
    if s == [] then []
    else
      var cs := Cuts(s[..|s| - 1], cut);
      if SeparatesAt(s, |s| - 1, cut) then cs + [|s| - 1] else cs
  }

  /** The pieces that are not empty, in order. */
  function NonEmpty(ps: seq<string>): (r: seq<string>)
    ensures |r| <= |ps|
    ensures forall k :: 0 <= k < |r| ==> r[k] != [] && r[k] in ps
  {
    if ps == [] then []
    else
      var r := NonEmpty(ps[..|ps| - 1]);
      assert forall t :: t in ps[..|ps| - 1] ==> t in ps;
      if ps[|ps| - 1] == [] then r else r + [ps[|ps| - 1]]
  }

  /** The words `split_preserving_quotes` returns: every one non-empty and
      no longer than the input. */
  function Words(s: string): (ws: seq<string>)
    ensures forall k :: 0 <= k < |ws| ==> ws[k] != [] && |ws[k]| <= |s|
  {
    NonEmpty(Pieces(s, AtWhitespace))
  }

  /** Each piece trimmed, in order. */
  function TrimAll(ps: seq<string>): (r: seq<string>)
    ensures |r| == |ps|
    ensures forall k :: 0 <= k < |ps| ==> |r[k]| <= |ps[k]|
  {
    if ps == [] then [] else TrimAll(ps[..|ps| - 1]) + [Trim(ps[|ps| - 1])]
  }

  /** The items `split_on_commas_preserving_quotes` returns: the non-empty
      pieces, trimmed, so an item can be empty. None is longer than the input. */
  function Items(s: string): (items: seq<string>)
    ensures forall k :: 0 <= k < |items| ==> |items[k]| <= |s|
  {
    var ne := NonEmpty(Pieces(s, AtComma));
    assert forall k :: 0 <= k < |ne| ==> |ne[k]| <= |s|;
    TrimAll(ne)
  }

  // ---------------------------------------------------------------------
  // What the pieces are.

  function PieceStart(cs: seq<nat>, k: nat): nat
    requires k <= |cs|
  {
    if k == 0 then 0 else cs[k - 1] + 1
  }

  function PieceEnd(cs: seq<nat>, k: nat, n: nat): nat
    requires k <= |cs|
  {
    if k == |cs| then n else cs[k]
  }

  /** Two prefixes agree on where their common positions separate. */
  lemma {:induction false} SeparatesInPrefix(s: string, n: nat, i: nat, cut: Cut)
    requires i < n <= |s|
    ensures SeparatesAt(s[..n], i, cut) == SeparatesAt(s, i, cut)
  {
    assert s[..n][..i] == s[..i];
  }

  /** `Cuts` lists exactly the separator positions, in increasing order. */
  lemma {:induction false} CutsAreSeparators(s: string, cut: Cut)
    ensures forall k, l :: 0 <= k < l < |Cuts(s, cut)| ==> Cuts(s, cut)[k] < Cuts(s, cut)[l]
    ensures forall i :: 0 <= i < |s| ==> (i in Cuts(s, cut) <==> SeparatesAt(s, i, cut))
  {
    if s != [] {
      var p := s[..|s| - 1];
      CutsAreSeparators(p, cut);
      forall i | 0 <= i < |p|
        ensures SeparatesAt(p, i, cut) == SeparatesAt(s, i, cut)
      {
        SeparatesInPrefix(s, |s| - 1, i, cut);
      }
    }
  }

  /** Reading one more character `c` after `s`. */
  lemma {:induction false} AppendStep(s: string, c: char, cut: Cut)
    ensures QuoteStateAfter(s + [c]) == Step(QuoteStateAfter(s), c)
    ensures SeparatesAt(s + [c], |s|, cut) == (QuoteStateAfter(s) == Outside && IsCut(cut, c))
    ensures Cuts(s + [c], cut) == Cuts(s, cut) + (if SeparatesAt(s + [c], |s|, cut) then [|s|] else [])
    ensures var ps := Pieces(s, cut);
            Pieces(s + [c], cut) ==
              if SeparatesAt(s + [c], |s|, cut) then ps + [[]]
              else ps[..|ps| - 1] + [ps[|ps| - 1] + [c]]
  {
    assert (s + [c])[..|s|] == s;
  }

  /** Piece `k` of `ps` is the stretch of `s` between the separators around it. */
  predicate PieceAt(s: string, cs: seq<nat>, ps: seq<string>, k: nat)
  {
    k <= |cs| && k < |ps| &&
    PieceStart(cs, k) <= PieceEnd(cs, k, |s|) <= |s| &&
    ps[k] == s[PieceStart(cs, k)..PieceEnd(cs, k, |s|)]
  }

  /** One step of `PiecesBetweenCuts`, on the cuts and pieces of `p` and of
      `p + [c]` as `AppendStep` relates them; `sep` says whether `c` is a
      separator. */
  lemma {:induction false} PieceAtAppended(p: string, c: char, csp: seq<nat>, psp: seq<string>, sep: bool,
                        cs: seq<nat>, ps: seq<string>, k: nat)
    requires |psp| == |csp| + 1 && k <= |csp| && PieceAt(p, csp, psp, k)
    requires cs == csp + (if sep then [|p|] else [])
    requires ps == if sep then psp + [[]] else psp[..|psp| - 1] + [psp[|psp| - 1] + [c]]
    ensures PieceAt(p + [c], cs, ps, k)
    ensures sep && k == |csp| ==> PieceAt(p + [c], cs, ps, k + 1)
  {
    var s := p + [c];
    var i := PieceStart(csp, k);
    assert PieceStart(cs, k) == i;
    if k < |csp| {
      assert cs[k] == csp[k] && ps[k] == psp[k];
      assert s[i..csp[k]] == p[i..csp[k]];
    } else if sep {
      assert PieceEnd(cs, k, |s|) == |p|;
      assert s[i..|p|] == p[i..|p|];
      assert PieceStart(cs, k + 1) == |s|;
    } else {
      assert s[i..|s|] == p[i..|p|] + [c];
    }
  }

  /** The pieces are the stretches between consecutive separators: piece
      `k` runs from just after the `k`-th separator (or from the start) up
      to the next one (or to the end). */
  lemma {:induction false} PiecesBetweenCuts(s: string, cut: Cut)
    ensures |Pieces(s, cut)| == |Cuts(s, cut)| + 1
    ensures forall k :: 0 <= k <= |Cuts(s, cut)| ==> PieceAt(s, Cuts(s, cut), Pieces(s, cut), k)
  {
    if s == [] {
      assert PieceAt(s, Cuts(s, cut), Pieces(s, cut), 0);
    } else {
      var p, c := s[..|s| - 1], s[|s| - 1];
      assert s == p + [c];
      PiecesBetweenCuts(p, cut);
      AppendStep(p, c, cut);
      var csp, psp := Cuts(p, cut), Pieces(p, cut);
      var sep := SeparatesAt(s, |p|, cut);
      forall k | 0 <= k <= |csp|
        ensures PieceAt(s, Cuts(s, cut), Pieces(s, cut), k)
      {
        PieceAtAppended(p, c, csp, psp, sep, Cuts(s, cut), Pieces(s, cut), k);
      }
      PieceAtAppended(p, c, csp, psp, sep, Cuts(s, cut), Pieces(s, cut), |csp|);
    }
  }

  /** No position inside a piece separates: each piece is a maximal run. */
  lemma {:induction false} NoSeparatorInsidePiece(s: string, cut: Cut, k: nat, j: nat)
    requires k <= |Cuts(s, cut)|
    requires PieceStart(Cuts(s, cut), k) <= j < PieceEnd(Cuts(s, cut), k, |s|)
    requires j < |s|
    ensures !SeparatesAt(s, j, cut)
  {
    var cs := Cuts(s, cut);
    CutsAreSeparators(s, cut);
    forall m | 0 <= m < |cs|
      ensures cs[m] != j
    {
      if m < k {
        assert m == k - 1 || cs[m] < cs[k - 1];
      } else {
        assert m == k || cs[k] < cs[m];
      }
    }
  }

  function Concat(ps: seq<string>): string
  {
    if ps == [] then [] else Concat(ps[..|ps| - 1]) + ps[|ps| - 1]
  }

  /** `s` without its separators; exactly `|Cuts(s)|` characters are dropped. */
  function Kept(s: string, cut: Cut): (r: string)
    ensures |r| + |Cuts(s, cut)| == |s|
  {
    if s == [] then []
    else Kept(s[..|s| - 1], cut) + (if SeparatesAt(s, |s| - 1, cut) then [] else [s[|s| - 1]])
  }

  lemma {:induction false} ConcatNonEmpty(ps: seq<string>)
    ensures Concat(NonEmpty(ps)) == Concat(ps)
  {
    if ps != [] {
      var init := ps[..|ps| - 1];
      ConcatNonEmpty(init);
      if ps[|ps| - 1] != [] {
        var r := NonEmpty(init) + [ps[|ps| - 1]];
        assert r[..|r| - 1] == NonEmpty(init);
      }
    }
  }

  lemma {:induction false} ConcatPieces(s: string, cut: Cut)
    ensures Concat(Pieces(s, cut)) == Kept(s, cut)
  {
    if s != [] {
      var p := s[..|s| - 1];
      ConcatPieces(p, cut);
      var psp := Pieces(p, cut);
      var ps := Pieces(s, cut);
      if SeparatesAt(s, |s| - 1, cut) {
        assert ps[..|ps| - 1] == psp;
      } else {
        var init := psp[..|psp| - 1];
        assert ps[..|ps| - 1] == init;
        assert Concat(psp) == Concat(init) + psp[|psp| - 1];
      }
    }
  }

  /** Gluing the words back together gives the input minus exactly the
      whitespace met outside quotes. */
  lemma {:induction false} WordsConcat(s: string)
    ensures Concat(Words(s)) == Kept(s, AtWhitespace)
  {
    ConcatNonEmpty(Pieces(s, AtWhitespace));
    ConcatPieces(s, AtWhitespace);
  }

  /** `ps` with `w` appended to its last (open) piece. */
  function Extend(ps: seq<string>, w: string): (r: seq<string>)
    requires |ps| >= 1
    ensures |r| == |ps| && r[..|r| - 1] == ps[..|ps| - 1] && r[|r| - 1] == ps[|ps| - 1] + w
  {
    ps[..|ps| - 1] + [ps[|ps| - 1] + w]
  }

  lemma {:induction false} ExtendTwice(ps: seq<string>, u: string, v: string)
    requires |ps| >= 1
    ensures Extend(Extend(ps, u), v) == Extend(ps, u + v)
  {
    assert ps[|ps| - 1] + u + v == ps[|ps| - 1] + (u + v);
  }

  /** Extending a fresh, empty piece makes it the given word. */
  lemma {:induction false} ExtendBlank(done: seq<string>, w: string)
    ensures Extend(done + [""], w) == done + [w]
  {
    assert (done + [""])[..|done|] == done;
    assert "" + w == w;
  }

  /** A character that is not a separator joins the open piece. */
  lemma {:induction false} JoinsOpenPiece(s: string, c: char, cut: Cut)
    requires !(QuoteStateAfter(s) == Outside && IsCut(cut, c))
    ensures Pieces(s + [c], cut) == Extend(Pieces(s, cut), [c])
  {
    AppendStep(s, c, cut);
  }

  /** Inside a region opened by `q`, any other character joins the open piece. */
  lemma {:induction false} InsideStep(s: string, q: char, x: char, cut: Cut)
    requires QuoteStateAfter(s) == Inside(q) && x != q
    ensures QuoteStateAfter(s + [x]) == Inside(q)
    ensures Pieces(s + [x], cut) == Extend(Pieces(s, cut), [x])
  {
    AppendStep(s, x, cut);
  }

  /** Inside a region opened by quote `q`, nothing separates: the whole
      region joins the open piece. */
  lemma {:induction false} QuotedRegion(p: string, q: char, body: string, cut: Cut)
    requires QuoteStateAfter(p) == Outside && IsQuote(q) && q !in body
    ensures QuoteStateAfter(p + [q] + body) == Inside(q)
    ensures Pieces(p + [q] + body, cut) == Extend(Pieces(p, cut), [q] + body)
    decreases |body|
  {
    assert !IsCut(cut, q);
    if body == [] {
      assert p + [q] + body == p + [q];
      assert [q] + body == [q];
      AppendStep(p, q, cut);
      JoinsOpenPiece(p, q, cut);
    } else {
      var b, x := SplitLast(p, q, body);
      assert q !in b && x != q;
      QuotedRegion(p, q, b, cut);
      InsideStep(p + [q] + b, q, x, cut);
      ExtendTwice(Pieces(p, cut), [q] + b, [x]);
    }
  }

  /** The last character of a quoted region, split off. */
  lemma {:induction false} SplitLast(p: string, q: char, body: string) returns (b: string, x: char)
    requires body != []
    ensures body == b + [x] && |b| == |body| - 1
    ensures p + [q] + body == (p + [q] + b) + [x] && [q] + body == ([q] + b) + [x]
  {
    b, x := body[..|body| - 1], body[|body| - 1];
    assert body == b + [x];
  }

  /** The closing quote ends the region and the open piece goes on. */
  lemma {:induction false} QuoteCloses(p: string, q: char, body: string, cut: Cut)
    requires QuoteStateAfter(p) == Outside && IsQuote(q) && q !in body
    ensures QuoteStateAfter(p + [q] + body + [q]) == Outside
    ensures Pieces(p + [q] + body + [q], cut) == Extend(Pieces(p, cut), [q] + body + [q])
  {
    QuotedRegion(p, q, body, cut);
    var s := p + [q] + body;
    assert !IsCut(cut, q);
    AppendStep(s, q, cut);
    JoinsOpenPiece(s, q, cut);
    ExtendTwice(Pieces(p, cut), [q] + body, [q]);
  }

  /** A quote that is never closed makes the rest of the input part of the
      final word. */
  lemma {:induction false} UnclosedQuoteEndsInOneWord(p: string, q: char, body: string)
    requires QuoteStateAfter(p) == Outside && IsQuote(q) && q !in body
    ensures var ps := Pieces(p, AtWhitespace);
            Words(p + [q] + body) == NonEmpty(ps[..|ps| - 1]) + [ps[|ps| - 1] + [q] + body]
  {
    QuotedRegion(p, q, body, AtWhitespace);
    var ps := Pieces(p, AtWhitespace);
    var last := ps[|ps| - 1] + [q] + body;
    assert ps[|ps| - 1] + ([q] + body) == last;
    assert Extend(ps, [q] + body) == ps[..|ps| - 1] + [last];
    NonEmptySnoc(ps[..|ps| - 1], last);
  }

  /** A run of characters that are neither quotes nor cut characters joins
      the open piece. */
  lemma {:induction false} PlainRun(p: string, w: string, cut: Cut)
    requires QuoteStateAfter(p) == Outside
    requires forall i :: 0 <= i < |w| ==> !IsQuote(w[i]) && !IsCut(cut, w[i])
    ensures QuoteStateAfter(p + w) == Outside
    ensures Pieces(p + w, cut) == Extend(Pieces(p, cut), w)
  {
    if w == [] {
      assert p + w == p;
      assert Pieces(p, cut)[|Pieces(p, cut)| - 1] + w == Pieces(p, cut)[|Pieces(p, cut)| - 1];
    } else {
      var v, x := w[..|w| - 1], w[|w| - 1];
      assert w == v + [x];
      assert p + w == (p + v) + [x];
      PlainRun(p, v, cut);
      AppendStep(p + v, x, cut);
      JoinsOpenPiece(p + v, x, cut);
      ExtendTwice(Pieces(p, cut), v, [x]);
    }
  }

  /** A cut character outside quotes starts a new, empty piece. */
  lemma {:induction false} SeparatorOutside(p: string, c: char, cut: Cut)
    requires QuoteStateAfter(p) == Outside && IsCut(cut, c)
    ensures QuoteStateAfter(p + [c]) == Outside
    ensures Pieces(p + [c], cut) == Pieces(p, cut) + [[]]
  {
    AppendStep(p, c, cut);
  }

  /** After reading `s` outside quotes, cutting at `cut` has produced `ps`. */
  predicate Reached(s: string, cut: Cut, ps: seq<string>)
  {
    QuoteStateAfter(s) == Outside && Pieces(s, cut) == ps
  }

  lemma {:induction false} ReachPlain(s: string, w: string, cut: Cut, ps: seq<string>, s': string, ps': seq<string>)
    requires Reached(s, cut, ps)
    requires forall i :: 0 <= i < |w| ==> !IsQuote(w[i]) && !IsCut(cut, w[i])
    requires s' == s + w && ps' == Extend(ps, w)
    ensures Reached(s', cut, ps')
  {
    PlainRun(s, w, cut);
  }

  lemma {:induction false} ReachSeparator(s: string, c: char, cut: Cut, ps: seq<string>, s': string, ps': seq<string>)
    requires Reached(s, cut, ps) && IsCut(cut, c)
    requires s' == s + [c] && ps' == ps + [""]
    ensures Reached(s', cut, ps')
  {
    SeparatorOutside(s, c, cut);
  }

  lemma {:induction false} ReachQuoted(s: string, body: string, cut: Cut, ps: seq<string>, s': string, ps': seq<string>)
    requires Reached(s, cut, ps) && '"' !in body
    requires s' == s + "\"" + body + "\"" && ps' == Extend(ps, "\"" + body + "\"")
    ensures Reached(s', cut, ps')
  {
    QuoteCloses(s, '"', body, cut);
  }

  lemma {:induction false} QuotedTextKey()
    ensures Reached("{ \"key\"", AtWhitespace, ["{", "\"key\""])
  {
    assert Reached("", AtWhitespace, [""]);
    ReachPlain("", "{", AtWhitespace, [""], "{", ["{"]);
    ReachSeparator("{", ' ', AtWhitespace, ["{"], "{ ", ["{", ""]);
    ExtendBlank(["{"], "\"key\"");
    assert "\"" + "key" + "\"" == "\"key\"";
    ReachQuoted("{ ", "key", AtWhitespace, ["{", ""], "{ \"key\"", ["{", "\"key\""]);
  }

  lemma {:induction false} QuotedTextFirstHalf()
    ensures Reached("{ \"key\" : ", AtWhitespace, ["{", "\"key\"", ":", ""])
  {
    QuotedTextKey();
    ReachSeparator("{ \"key\"", ' ', AtWhitespace, ["{", "\"key\""], "{ \"key\" ", ["{", "\"key\"", ""]);
    ExtendBlank(["{", "\"key\""], ":");
    ReachPlain("{ \"key\" ", ":", AtWhitespace, ["{", "\"key\"", ""], "{ \"key\" :", ["{", "\"key\"", ":"]);
    ReachSeparator("{ \"key\" :", ' ', AtWhitespace, ["{", "\"key\"", ":"], "{ \"key\" : ", ["{", "\"key\"", ":", ""]);
  }

  lemma {:induction false} QuotedTextSecondHalf()
    ensures Reached("{ \"key\" : \"value is value\"", AtWhitespace, ["{", "\"key\"", ":", "\"value is value\""])
  {
    QuotedTextFirstHalf();
    ExtendBlank(["{", "\"key\"", ":"], "\"value is value\"");
    assert "\"" + "value is value" + "\"" == "\"value is value\"";
    ReachQuoted("{ \"key\" : ", "value is value", AtWhitespace, ["{", "\"key\"", ":", ""],
                "{ \"key\" : \"value is value\"", ["{", "\"key\"", ":", "\"value is value\""]);
  }

  lemma {:induction false} QuotedTextLastWord()
    ensures Reached("{ \"key\" : \"value is value\" }", AtWhitespace, ["{", "\"key\"", ":", "\"value is value\"", "}"])
  {
    QuotedTextSecondHalf();
    ReachSeparator("{ \"key\" : \"value is value\"", ' ', AtWhitespace, ["{", "\"key\"", ":", "\"value is value\""],
               "{ \"key\" : \"value is value\" ", ["{", "\"key\"", ":", "\"value is value\"", ""]);
    ExtendBlank(["{", "\"key\"", ":", "\"value is value\""], "}");
    ReachPlain("{ \"key\" : \"value is value\" ", "}", AtWhitespace, ["{", "\"key\"", ":", "\"value is value\"", ""],
               "{ \"key\" : \"value is value\" }", ["{", "\"key\"", ":", "\"value is value\"", "}"]);
  }

  /** The words of `{ "key" : "value is value" }`: the quoted text with
      spaces stays one word. */
  lemma {:induction false} WordsOfQuotedText()
    ensures Words("{ \"key\" : \"value is value\" }") ==
            ["{", "\"key\"", ":", "\"value is value\"", "}"]
  {
    QuotedTextLastWord();
    var ws := ["{", "\"key\"", ":", "\"value is value\"", "}"];
    assert ws == ws[..4] + ["}"] && ws[..4] == ws[..3] + ["\"value is value\""];
    assert ws[..3] == ws[..2] + [":"] && ws[..2] == ws[..1] + ["\"key\""] && ws[..1] == [] + ["{"];
    NonEmptySnoc([], "{");
    NonEmptySnoc(ws[..1], "\"key\"");
    NonEmptySnoc(ws[..2], ":");
    NonEmptySnoc(ws[..3], "\"value is value\"");
    NonEmptySnoc(ws[..4], "}");
  }

  /** `{}` is a single word. */
  lemma {:induction false} WordsOfBraces()
    ensures Words("{}") == ["{}"]
  {
    ReachPlain("", "{}", AtWhitespace, [""], "{}", ["{}"]);
    NonEmptySnoc([], "{}");
  }

  /** `a, ,b` is cut at both commas; the space stays in the middle piece. */
  lemma {:induction false} PiecesWithBlank()
    ensures Pieces("a, ,b", AtComma) == ["a", " ", "b"]
  {
    assert Reached("", AtComma, [""]);
    ReachPlain("", "a", AtComma, [""], "a", ["a"]);
    ReachSeparator("a", ',', AtComma, ["a"], "a,", ["a", ""]);
    ExtendBlank(["a"], " ");
    ReachPlain("a,", " ", AtComma, ["a", ""], "a, ", ["a", " "]);
    ReachSeparator("a, ", ',', AtComma, ["a", " "], "a, ,", ["a", " ", ""]);
    ExtendBlank(["a", " "], "b");
    ReachPlain("a, ,", "b", AtComma, ["a", " ", ""], "a, ,b", ["a", " ", "b"]);
  }

  /** The items of `a, ,b`: the blank between the two commas is trimmed to
      an empty item, which is kept. */
  lemma {:induction false} ItemsWithBlank()
    ensures Items("a, ,b") == ["a", "", "b"]
  {
    PiecesWithBlank();
    TrimsWithBlank();
    ItemsOfPieces("a, ,b", ["a", " ", "b"], ["a", "", "b"]);
  }

  lemma {:induction false} TrimsWithBlank()
    ensures NonEmpty(["a", " ", "b"]) == ["a", " ", "b"]
    ensures TrimAll(["a", " ", "b"]) == ["a", "", "b"]
  {
    NonEmptyKeeps(["a", " ", "b"]);
    TrimsOfThree("a", " ", "b");
  }

  /** The three items trimmed one by one. The texts are passed as parameters
      fixed by the requires, so the solver reasons about names rather than
      about the literals. */
  lemma {:induction false} TrimsOfThree(a: string, b: string, c: string)
    requires a == "a" && b == " " && c == "b"
    ensures TrimAll([a, b, c]) == ["a", "", "b"]
  {
    TrimKeeps(a);
    TrimBlank(b);
    TrimKeeps(c);
    TrimAllIs([a, b, c], [a, [], c]);
  }

  /** The items of `s`, from its pieces. */
  lemma {:induction false} ItemsOfPieces(s: string, ps: seq<string>, ts: seq<string>)
    requires Pieces(s, AtComma) == ps && NonEmpty(ps) == ps && TrimAll(ps) == ts
    ensures Items(s) == ts
  {
  }

  // ---------------------------------------------------------------------
  // The imperative splitters.

  /** Reading one more character of `s`. */
  lemma {:induction false} PiecesStep(s: string, i: nat, cut: Cut)
    requires i < |s|
    ensures QuoteStateAfter(s[..i + 1]) == Step(QuoteStateAfter(s[..i]), s[i])
    ensures var ps := Pieces(s[..i], cut);
            Pieces(s[..i + 1], cut) ==
              if QuoteStateAfter(s[..i]) == Outside && IsCut(cut, s[i]) then ps + [[]]
              else ps[..|ps| - 1] + [ps[|ps| - 1] + [s[i]]]
  {
    assert s[..i + 1][..i] == s[..i];
  }

  /** The loop state of both splitters after reading `input[..i]`: the
      quote flags agree with `QuoteStateAfter`, `closed` holds the finished
      non-empty pieces, and `tokenStart` marks where the open piece starts
      (absent exactly when that piece is empty). */
  ghost predicate Scanned(input: string, i: nat, cut: Cut, inQuotes: bool, quoteChar: char,
                          tokenStart: Option<nat>, closed: seq<string>)
    requires i <= |input|
  {
    var ps := Pieces(input[..i], cut);
    var last := ps[|ps| - 1];
    QuoteStateAfter(input[..i]) == (if inQuotes then Inside(quoteChar) else Outside) &&
    closed == NonEmpty(ps[..|ps| - 1]) &&
    (tokenStart.None? <==> last == []) &&
    (tokenStart.Some? ==> tokenStart.value <= i && input[tokenStart.value..i] == last) &&
    (inQuotes ==> tokenStart.Some?)
  }

  lemma {:induction false} NonEmptySnoc(ps: seq<string>, p: string)
    ensures NonEmpty(ps + [p]) == if p == [] then NonEmpty(ps) else NonEmpty(ps) + [p]
  {
    assert (ps + [p])[..|ps|] == ps;
  }

  /** Pieces that are all non-empty are all kept. */
  lemma {:induction false} NonEmptyKeeps(ps: seq<string>)
    requires forall k :: 0 <= k < |ps| ==> ps[k] != []
    ensures NonEmpty(ps) == ps
  {
    if ps != [] {
      NonEmptyKeeps(ps[..|ps| - 1]);
    }
  }

  lemma {:induction false} TrimAllSnoc(ps: seq<string>, p: string)
    ensures TrimAll(ps + [p]) == TrimAll(ps) + [Trim(p)]
  {
    assert (ps + [p])[..|ps|] == ps;
  }

  /** Item `k` is piece `k` trimmed: trimming keeps the order. */
  lemma {:induction false} TrimAllIs(ps: seq<string>, ts: seq<string>)
    requires |ps| == |ts|
    requires forall k :: 0 <= k < |ps| ==> Trim(ps[k]) == ts[k]
    ensures TrimAll(ps) == ts
  {
    if ps != [] {
      TrimAllIs(ps[..|ps| - 1], ts[..|ts| - 1]);
    }
  }

  /** A character that is not a separator joins the open piece. */
  lemma {:induction false} ScanJoins(input: string, i: nat, cut: Cut, inQuotes: bool, quoteChar: char,
                  tokenStart: Option<nat>, closed: seq<string>, inQuotes': bool, quoteChar': char)
    requires i < |input|
    requires Scanned(input, i, cut, inQuotes, quoteChar, tokenStart, closed)
    requires !SeparatesAt(input, i, cut)
    requires Step(if inQuotes then Inside(quoteChar) else Outside, input[i]) ==
             if inQuotes' then Inside(quoteChar') else Outside
    ensures Scanned(input, i + 1, cut, inQuotes', quoteChar',
                    if tokenStart.None? then Some(i) else tokenStart, closed)
  {
    PiecesJoin(input, i, cut);
    var ps' := Pieces(input[..i + 1], cut);
    var start := if tokenStart.None? then i else tokenStart.value;
    SliceGrows(input, start, i);
  }

  lemma {:induction false} SliceGrows(s: string, a: nat, b: nat)
    requires a <= b < |s|
    ensures s[a..b + 1] == s[a..b] + [s[b]]
  {
  }

  lemma {:induction false} PiecesJoin(input: string, i: nat, cut: Cut)
    requires i < |input|
    requires !SeparatesAt(input, i, cut)
    ensures var ps, ps' := Pieces(input[..i], cut), Pieces(input[..i + 1], cut);
            |ps'| == |ps| && ps'[..|ps'| - 1] == ps[..|ps| - 1] &&
            ps'[|ps'| - 1] == ps[|ps| - 1] + [input[i]]
    ensures QuoteStateAfter(input[..i + 1]) == Step(QuoteStateAfter(input[..i]), input[i])
  {
    PiecesStep(input, i, cut);
  }

  lemma {:induction false} PiecesCut(input: string, i: nat, cut: Cut)
    requires i < |input|
    requires SeparatesAt(input, i, cut)
    ensures Pieces(input[..i + 1], cut) == Pieces(input[..i], cut) + [[]]
    ensures QuoteStateAfter(input[..i + 1]) == Outside
  {
    PiecesStep(input, i, cut);
  }

  /** A separator closes the open piece and starts an empty one. */
  lemma {:induction false} ScanCuts(input: string, i: nat, cut: Cut, inQuotes: bool, quoteChar: char,
                 tokenStart: Option<nat>, closed: seq<string>)
    requires i < |input|
    requires Scanned(input, i, cut, inQuotes, quoteChar, tokenStart, closed)
    requires SeparatesAt(input, i, cut)
    ensures Scanned(input, i + 1, cut, inQuotes, quoteChar, None,
                    if tokenStart.Some? then closed + [input[tokenStart.value..i]] else closed)
  {
    PiecesCut(input, i, cut);
    var ps := Pieces(input[..i], cut);
    assert (ps + [[]])[..|ps|] == ps;
    assert ps == ps[..|ps| - 1] + [ps[|ps| - 1]];
    NonEmptySnoc(ps[..|ps| - 1], ps[|ps| - 1]);
  }

  /** At the end of the input, the open piece is the last one. */
  lemma {:induction false} ScanEnds(input: string, cut: Cut, inQuotes: bool, quoteChar: char,
                 tokenStart: Option<nat>, closed: seq<string>)
    requires Scanned(input, |input|, cut, inQuotes, quoteChar, tokenStart, closed)
    ensures NonEmpty(Pieces(input, cut)) ==
              if tokenStart.Some? then closed + [input[tokenStart.value..]] else closed
  {
    var ps := Pieces(input, cut);
    assert input[..|input|] == input;
    assert ps == ps[..|ps| - 1] + [ps[|ps| - 1]];
    NonEmptySnoc(ps[..|ps| - 1], ps[|ps| - 1]);
  }

  /** `split_preserving_quotes`. */
  method SplitPreservingQuotes(input: string) returns (tokens: seq<string>)
    ensures tokens == Words(input)
  {
    tokens := [];
    var inQuotes := false;
    var quoteChar := '\0';
    var tokenStart: Option<nat> := None;
    for i := 0 to |input|
      invariant Scanned(input, i, AtWhitespace, inQuotes, quoteChar, tokenStart, tokens)
    {
      var c := input[i];
      if IsQuote(c) && !inQuotes {
        ScanJoins(input, i, AtWhitespace, inQuotes, quoteChar, tokenStart, tokens, true, c);
        inQuotes := true;
        quoteChar := c;
        if tokenStart.None? {
          tokenStart := Some(i);
        }
      } else if inQuotes && c == quoteChar {
        ScanJoins(input, i, AtWhitespace, inQuotes, quoteChar, tokenStart, tokens, false, quoteChar);
        inQuotes := false;
      } else if IsWhitespace(c) && !inQuotes {
        ScanCuts(input, i, AtWhitespace, inQuotes, quoteChar, tokenStart, tokens);
        if tokenStart.Some? {
          tokens := tokens + [input[tokenStart.value..i]];
          tokenStart := None;
        }
      } else {
        ScanJoins(input, i, AtWhitespace, inQuotes, quoteChar, tokenStart, tokens, inQuotes, quoteChar);
        if tokenStart.None? {
          tokenStart := Some(i);
        }
      }
    }
    ScanEnds(input, AtWhitespace, inQuotes, quoteChar, tokenStart, tokens);
    if tokenStart.Some? {
      tokens := tokens + [input[tokenStart.value..]];
    }
  }

  /** `split_on_commas_preserving_quotes`. */
  method SplitOnCommasPreservingQuotes(input: string) returns (tokens: seq<string>)
    ensures tokens == Items(input)
  {
    tokens := [];
    ghost var closed: seq<string> := [];
    var inQuotes := false;
    var quoteChar := '\0';
    var tokenStart: Option<nat> := None;
    for i := 0 to |input|
      invariant Scanned(input, i, AtComma, inQuotes, quoteChar, tokenStart, closed)
      invariant tokens == TrimAll(closed)
    {
      var c := input[i];
      if IsQuote(c) && !inQuotes {
        ScanJoins(input, i, AtComma, inQuotes, quoteChar, tokenStart, closed, true, c);
        inQuotes := true;
        quoteChar := c;
        if tokenStart.None? {
          tokenStart := Some(i);
        }
      } else if inQuotes && c == quoteChar {
        ScanJoins(input, i, AtComma, inQuotes, quoteChar, tokenStart, closed, false, quoteChar);
        inQuotes := false;
      } else if c == ',' && !inQuotes {
        ScanCuts(input, i, AtComma, inQuotes, quoteChar, tokenStart, closed);
        if tokenStart.Some? {
          TrimAllSnoc(closed, input[tokenStart.value..i]);
          closed := closed + [input[tokenStart.value..i]];
          tokens := tokens + [Trim(input[tokenStart.value..i])];
          tokenStart := None;
        }
      } else {
        ScanJoins(input, i, AtComma, inQuotes, quoteChar, tokenStart, closed, inQuotes, quoteChar);
        if tokenStart.None? {
          tokenStart := Some(i);
        }
      }
    }
    ScanEnds(input, AtComma, inQuotes, quoteChar, tokenStart, closed);
    if tokenStart.Some? {
      TrimAllSnoc(closed, input[tokenStart.value..]);
      closed := closed + [input[tokenStart.value..]];
      tokens := tokens + [Trim(input[tokenStart.value..])];
    }
  }
}
