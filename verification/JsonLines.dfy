/** One JSON record a line. What a record looks like is a codec's business. */
module JsonLines {
  import opened Bytes
  import opened Lines
  import opened Sequences
  import opened Wrappers

  /** `blank` tells the lines the reader passes over. */
  datatype Codec<!T> = Codec(
    encode: T -> Option<seq<byte>>,
    decode: seq<byte> -> Option<T>,
    blank: seq<byte> -> bool)

  datatype JsonError = InvalidData

  ghost predicate GoodLine<T(!new)>(codec: Codec<T>, line: seq<byte>, x: T) {
    && codec.decode(line) == Some(x) && !codec.blank(line)
    && NewlineFree(line) && (line == [] || Last(line) != CARRIAGE_RETURN)
  }

  /** What a JSON printer keeps: a record reads back from its one line. */
  ghost predicate Faithful<T(!new)>(codec: Codec<T>) {
    forall x: T | codec.encode(x).Some? :: GoodLine(codec, codec.encode(x).value, x)
  }

  /** The file written for the items, unless one of them cannot be printed. */
  function TextOf<T>(codec: Codec<T>, items: seq<T>): Option<seq<byte>> {
    if items == [] then Some([])
    else
      var before, line := TextOf(codec, DropLast(items)), codec.encode(Last(items));
      if before.Some? && line.Some? then Some(before.value + (line.value + [NEWLINE])) else None
  }

  function NonBlank<T>(codec: Codec<T>): seq<byte> -> bool {
    (line: seq<byte>) => !codec.blank(line)
  }

  function ParseAll<T>(codec: Codec<T>, lines: seq<seq<byte>>): Option<seq<T>> {
    if lines == [] then Some([])
    else
      var before, x := ParseAll(codec, DropLast(lines)), codec.decode(Last(lines));
      if before.Some? && x.Some? then Some(before.value + [x.value]) else None
  }

  /** The items of a file; a missing file has none. */
  function ItemsOf<T>(codec: Codec<T>, file: Option<seq<byte>>): Option<seq<T>> {
    match file
    case None => Some([])
    case Some(text) => ParseAll(codec, Filter(NonBlank(codec), AllLines(text)))
  }

  lemma {:induction false} UnprintableItem<T>(codec: Codec<T>, items: seq<T>, i: nat)
    requires i < |items| && codec.encode(items[i]).None?
    ensures TextOf(codec, items).None?
  {
    if i < |items| - 1 {
      UnprintableItem(codec, DropLast(items), i);
    }
  }

  method WriteJsonl<T>(codec: Codec<T>, items: seq<T>) returns (r: Result<seq<byte>, JsonError>)
    ensures r.Ok? <==> TextOf(codec, items).Some?
    ensures r.Ok? <==> forall x | x in items :: codec.encode(x).Some?
    ensures r.Ok? ==> TextOf(codec, items) == Some(r.value)
  {
    var text := [];
    for i := 0 to |items|
      invariant TextOf(codec, items[..i]) == Some(text)
      invariant forall x | x in items[..i] :: codec.encode(x).Some?
    {
      assert DropLast(items[..i + 1]) == items[..i];
      var line := codec.encode(items[i]);
      if line.None? {
        UnprintableItem(codec, items, i);
        return Err(InvalidData);
      }
      text := text + (line.value + [NEWLINE]);
    }
    assert items[..|items|] == items;
    r := Ok(text);
  }

  lemma {:induction false} ParseAllFailsExactlyWhen<T>(codec: Codec<T>, lines: seq<seq<byte>>)
    ensures ParseAll(codec, lines).None? <==> exists i :: 0 <= i < |lines| && codec.decode(lines[i]).None?
  {
    if lines != [] {
      var init := DropLast(lines);
      ParseAllFailsExactlyWhen(codec, init);
      assert forall i | 0 <= i < |init| :: init[i] == lines[i];
      assert lines[|lines| - 1] == Last(lines);
    }
  }

  method ReadJsonl<T>(codec: Codec<T>, file: Option<seq<byte>>) returns (r: Result<seq<T>, JsonError>)
    ensures r.Ok? <==> ItemsOf(codec, file).Some?
    ensures r.Ok? ==> ItemsOf(codec, file) == Some(r.value)
  {
    if file.None? {
      return Ok([]);
    }
    var lines := Filter(NonBlank(codec), AllLines(file.value));
    var items := [];
    for i := 0 to |lines|
      invariant ParseAll(codec, lines[..i]) == Some(items)
    {
      assert DropLast(lines[..i + 1]) == lines[..i];
      var item := codec.decode(lines[i]);
      if item.None? {
        ParseAllFailsExactlyWhen(codec, lines);
        return Err(InvalidData);
      }
      items := items + [item.value];
    }
    assert lines[..|lines|] == lines;
    r := Ok(items);
  }

  lemma {:induction false} TextEndsInNewline<T>(codec: Codec<T>, items: seq<T>)
    requires TextOf(codec, items).Some?
    ensures Rest(TextOf(codec, items).value) == []
  {
  }

  lemma ParseSnoc<T>(codec: Codec<T>, lines: seq<seq<byte>>, line: seq<byte>)
    ensures ParseAll(codec, lines + [line]) ==
            if ParseAll(codec, lines).Some? && codec.decode(line).Some?
            then Some(ParseAll(codec, lines).value + [codec.decode(line).value]) else None
  {
    assert DropLast(lines + [line]) == lines;
  }

  predicate IsBadLine<T>(codec: Codec<T>, line: seq<byte>) {
    !codec.blank(line) && codec.decode(line).None?
  }

  /** What a line adds to the items: nothing when it is blank. */
  function ItemOf<T>(codec: Codec<T>): seq<byte> -> seq<T> {
    (line: seq<byte>) =>
      if codec.blank(line) then [] else match codec.decode(line) case Some(x) => [x] case None => []
  }

  lemma {:induction false} ParseKept<T>(codec: Codec<T>, lines: seq<seq<byte>>)
    ensures var r := ParseAll(codec, Filter(NonBlank(codec), lines));
            && (r.None? <==> exists i :: 0 <= i < |lines| && IsBadLine(codec, lines[i]))
            && (r.Some? ==> r.value == FlatMap(ItemOf(codec), lines))
  {
    if lines != [] {
      var init, l := DropLast(lines), Last(lines);
      ParseKept(codec, init);
      ParseSnoc(codec, Filter(NonBlank(codec), init), l);
      assert forall i | 0 <= i < |init| :: init[i] == lines[i];
      assert lines[|lines| - 1] == l;
    }
  }

  /** A file is refused exactly when a line that is not blank is no record;
      otherwise it gives the records of its other lines, in order. */
  lemma ReadFailsExactlyWhen<T>(codec: Codec<T>, text: seq<byte>)
    ensures var r := ItemsOf(codec, Some(text));
            && (r.None? <==> exists i :: 0 <= i < |AllLines(text)| && IsBadLine(codec, AllLines(text)[i]))
            && (r.Some? ==> r.value == FlatMap(ItemOf(codec), AllLines(text)))
  {
    ParseKept(codec, AllLines(text));
  }

  /** Reading back what was written gives the items that were written. */
  lemma {:induction false} ReadBack<T(!new)>(codec: Codec<T>, items: seq<T>)
    requires Faithful(codec) && TextOf(codec, items).Some?
    ensures ItemsOf(codec, TextOf(codec, items)) == Some(items)
  {
    if items == [] {
      NoNewlineNoLines([]);
      assert AllLines([]) == [];
    } else {
      var text, x := TextOf(codec, DropLast(items)).value, Last(items);
      var line := codec.encode(x).value;
      ReadBack(codec, DropLast(items));
      TextEndsInNewline(codec, DropLast(items));
      assert GoodLine(codec, line, x);
      LineAppended(text, line);
      assert DropLast(line + [NEWLINE]) == line;
      FilterSnoc(NonBlank(codec), AllLines(text), line);
      ParseSnoc(codec, Filter(NonBlank(codec), AllLines(text)), line);
      LastPutBack(items);
    }
  }
}
