/** Bytes and the two of them that end lines. */
module Bytes {
  type byte = x: int | 0 <= x < 256

  const NEWLINE: byte := 10
  const CARRIAGE_RETURN: byte := 13
}

/** Splitting a text into lines, terminated or not. */
module Lines {
  import opened Bytes
  import opened Sequences

  predicate NewlineFree(text: seq<byte>) {
    forall i | 0 <= i < |text| :: text[i] != NEWLINE
  }

  /** The bytes after the last newline. */
  function Rest(text: seq<byte>): seq<byte> {
    if text == [] || Last(text) == NEWLINE then []
    else Rest(DropLast(text)) + [Last(text)]
  }

  lemma {:induction false} RestIsNewlineFree(text: seq<byte>)
    ensures NewlineFree(Rest(text))
  {
    if text != [] && Last(text) != NEWLINE {
      RestIsNewlineFree(DropLast(text));
    }
  }

  /** The newline-terminated lines, each with its newline. */
  function Complete(text: seq<byte>): seq<seq<byte>> {
    if text == [] then []
    else if Last(text) == NEWLINE then Complete(DropLast(text)) + [Rest(DropLast(text)) + [NEWLINE]]
    else Complete(DropLast(text))
  }

  lemma {:induction false} NoNewlineNoLines(text: seq<byte>)
    requires NewlineFree(text)
    ensures Complete(text) == [] && Rest(text) == text
  {
    if text != [] {
      var init, l := DropLast(text), Last(text);
      assert text == init + [l] && l != NEWLINE;
      NoNewlineNoLines(init);
      assert Rest(text) == Rest(init) + [l];
    }
  }

  lemma {:induction false} RestAppend(a: seq<byte>, b: seq<byte>)
    ensures Rest(a + b) == Rest(Rest(a) + b)
  {
    if b == [] {
      assert a + b == a && Rest(a) + b == Rest(a);
      RestIsNewlineFree(a);
      NoNewlineNoLines(Rest(a));
    } else {
      RestAppend(a, DropLast(b));
      assert DropLast(a + b) == a + DropLast(b);
      assert DropLast(Rest(a) + b) == Rest(a) + DropLast(b);
    }
  }

  /** Reading on from the unterminated rest gives the lines that reading the whole text again would add. */
  lemma {:induction false} CompleteAppend(a: seq<byte>, b: seq<byte>)
    ensures Complete(a + b) == Complete(a) + Complete(Rest(a) + b)
  {
    var again := Rest(a) + b;
    if b == [] {
      assert a + b == a && again == Rest(a);
      RestIsNewlineFree(a);
      NoNewlineNoLines(Rest(a));
    } else {
      var init := DropLast(b);
      CompleteAppend(a, init);
      RestAppend(a, init);
      assert DropLast(a + b) == a + init && Last(a + b) == Last(b);
      assert DropLast(again) == Rest(a) + init && Last(again) == Last(b);
    }
  }

  lemma SingleLine(line: seq<byte>)
    requires NewlineFree(line)
    ensures Complete(line + [NEWLINE]) == [line + [NEWLINE]] && Rest(line + [NEWLINE]) == []
  {
    assert DropLast(line + [NEWLINE]) == line;
    NoNewlineNoLines(line);
  }

  /** A line without its newline, and without the carriage return before it. */
  function Chomp(line: seq<byte>): seq<byte> {
    var body := if line == [] then [] else DropLast(line);
    if body != [] && Last(body) == CARRIAGE_RETURN then DropLast(body) else body
  }

  /** The lines of a text as `str::lines` and `BufRead::lines` give them. */
  function AllLines(text: seq<byte>): seq<seq<byte>> {
    Map(Chomp, Complete(text)) + if Rest(text) == [] then [] else [Rest(text)]
  }

  lemma LineAppended(text: seq<byte>, line: seq<byte>)
    requires Rest(text) == [] && NewlineFree(line)
    ensures AllLines(text + (line + [NEWLINE])) == AllLines(text) + [Chomp(line + [NEWLINE])]
  {
    var added := line + [NEWLINE];
    CompleteAppend(text, added);
    RestAppend(text, added);
    assert [] + added == added;
    SingleLine(line);
    assert DropLast(added) == line;
    MapSnoc(Chomp, Complete(text), added);
    assert AllLines(text + added) == Map(Chomp, Complete(text) + [added]);
    assert AllLines(text) == Map(Chomp, Complete(text));
  }
}
