/** The commonest lines, written out in characters, and the words they split into. */
module SplitWords {
  import opened Wrappers
  import opened Seqs
  import opened Text
  import opened Split

  /** No white space and no quote. */
  predicate IsPlain(text: string) {
    forall i :: 0 <= i < |text| ==> !IsWhitespace(text[i]) && text[i] != '"' && text[i] != '\''
  }

  lemma OneWord(pieces: seq<Piece>)
    requires pieces != [] && PiecesOk(pieces)
    ensures Finish(Feed(START, PiecesText(pieces))) == Ok([WordOf(pieces)])
  {
    var item := Item(pieces, "");
    var line := Line("", [item]);
    LinesAreSplit(line);
    ItemsAppend([], item);
    NothingAppended([item]);
    NothingAppended([WordOf(pieces)]);
    NothingAppended(PiecesText(pieces));
    NothingAppended(ItemText(item));
  }

  lemma OnePiece(p: Piece)
    ensures PiecesText([p]) == PieceText(p) && WordOf([p]) == p.text
  {
    PiecesAppend([], p);
    NothingAppended([p]);
    NothingAppended(PieceText(p));
    NothingAppended(p.text);
  }

  /** A word without white space and quotes is itself. */
  lemma PlainWordIsItself(word: string)
    requires word != "" && IsPlain(word)
    ensures Finish(Feed(START, word)) == Ok([word])
  {
    OnePiece(Bare(word));
    OneWord([Bare(word)]);
  }

  /** Between two double quotes or two single ones everything else is one word, even nothing and the other quote. */
  lemma QuotedIsOneWord(text: string)
    ensures '"' !in text ==> Finish(Feed(START, ['"'] + text + ['"'])) == Ok([text])
    ensures '\'' !in text ==> Finish(Feed(START, ['\''] + text + ['\''])) == Ok([text])
  {
    if '"' !in text {
      OnePiece(Quoted('"', text));
      OneWord([Quoted('"', text)]);
    }
    if '\'' !in text {
      OnePiece(Quoted('\'', text));
      OneWord([Quoted('\'', text)]);
    }
  }

  /** A quote inside a word does not end it: what is quoted goes on with what stands before it. */
  lemma QuotedGoesOn(word: string, text: string)
    requires word != "" && IsPlain(word) && '"' !in text
    ensures Finish(Feed(START, word + (['"'] + text + ['"']))) == Ok([word + text])
  {
    OnePiece(Bare(word));
    PiecesAppend([Bare(word)], Quoted('"', text));
    OneWord([Bare(word)] + [Quoted('"', text)]);
  }

  /** White space between two plain words makes them two. */
  lemma BlanksSeparate(a: string, gap: string, b: string)
    requires a != "" && IsPlain(a) && b != "" && IsPlain(b) && gap != "" && IsBlank(gap)
    ensures Finish(Feed(START, (a + gap) + b)) == Ok([a, b])
  {
    PlainWordIsItself(a);
    PlainWordIsItself(b);
    SplitsConcatenate(a, gap, b);
    assert [a] + [b] == [a, b];
  }
}
