/**
 * `writeHistory` of history.go with colour switched off: the counts of data and
 * empty layers, the age of the image, then one block per build step.
 */
module Render {
  import opened Wrappers
  import opened Strings
  import opened History

  /** `%t`. */
  function BoolText(b: bool): string
  {
    if b then "true" else "false"
  }

  /** One tab-indented, newline-terminated line per element. */
  function IndentLines(lines: seq<string>): (r: string)
    ensures lines != [] ==> |r| > 0 && r[|r| - 1] == '\n'
  {
    if lines == [] then "" else "\t" + lines[0] + "\n" + IndentLines(lines[1..])
  }

  /** Each line prefixed with a tab. */
  function Indented(lines: seq<string>): (r: seq<string>)
    ensures |r| == |lines|
  {
    if lines == [] then [] else ["\t" + lines[0]] + Indented(lines[1..])
  }

  /**
   * The `created_by` field: inline when it has one line, otherwise a `|` block of
   * tab-indented lines; either way it closes the record with a blank line.
   */
  function CreatedByText(createdBy: string): (r: string)
    ensures |r| >= 2 && r[|r| - 2..] == "\n\n"
    ensures '\n' in createdBy ==> "|\n" <= r
  {
    ContainsChar(createdBy, '\n');
    if Contains(createdBy, "\n") then "|" + "\n" + (IndentLines(SplitOn(createdBy, '\n')) + "\n")
    else createdBy + "\n\n"
  }

  /** Each line followed by a newline. */
  function Lines(lines: seq<string>): string
  {
    if lines == [] then "" else lines[0] + "\n" + Lines(lines[1..])
  }

  /**
   * The one-line fields of a record's block, in the order they are printed: the layer
   * number counted from 1, the size label, the empty flag, the age, and the shell format
   * error when there is one.
   */
  function FieldLines(i: nat, e: HistoryEntry): seq<string>
  {
    ["layer: " + NatToString(i + 1), "size: " + e.layerSize,
     "empty_layer: " + BoolText(e.emptyLayer), "created: " + e.created]
    + (if e.shellFormatError.Some? then ["shell format error: " + e.shellFormatError.value] else [])
  }

  /**
   * The block of the record at index `i`: it opens with the layer number, counted
   * from 1, closes with the `created_by` field and so ends with a blank line.
   */
  function EntryBlock(i: nat, e: HistoryEntry): (r: string)
    ensures "layer: " + NatToString(i + 1) + "\n" <= r
    ensures var createdBy := "created_by: " + CreatedByText(e.createdBy);
      |createdBy| <= |r| && r[|r| - |createdBy|..] == createdBy
    ensures |r| >= 2 && r[|r| - 2..] == "\n\n"
  {
    var fields := FieldLines(i, e);
    var createdBy := "created_by: " + CreatedByText(e.createdBy);
    var r := Lines(fields) + createdBy;
    assert Lines(fields) == fields[0] + "\n" + Lines(fields[1..]);
    assert r[..|fields[0] + "\n"|] == fields[0] + "\n";
    assert r[|r| - |createdBy|..] == createdBy;
    assert r[|r| - 2..] == createdBy[|createdBy| - 2..];
    r
  }

  /** Newline-free lines split back out of their rendering, whatever follows them. */
  lemma {:induction false} SplitLines(lines: seq<string>, tail: string)
    requires forall k :: 0 <= k < |lines| ==> '\n' !in lines[k]
    ensures SplitOn(Lines(lines) + tail, '\n') == lines + SplitOn(tail, '\n')
    decreases |lines|
  {
    if lines == [] {
      assert Lines(lines) + tail == tail;
    } else {
      var rest := Lines(lines[1..]) + tail;
      calc {
        SplitOn(Lines(lines) + tail, '\n');
        { assert Lines(lines) + tail == lines[0] + "\n" + rest; }
        SplitOn(lines[0] + "\n" + rest, '\n');
        { SplitFirstPiece(lines[0], rest, '\n'); }
        [lines[0]] + SplitOn(rest, '\n');
        { SplitLines(lines[1..], tail); }
        [lines[0]] + (lines[1..] + SplitOn(tail, '\n'));
        { assert [lines[0]] + lines[1..] == lines; }
        lines + SplitOn(tail, '\n');
      }
    }
  }

  /** Every rendered line occurs in the rendering, with its newline. */
  lemma {:induction false} LineShown(lines: seq<string>, k: nat)
    requires k < |lines|
    ensures Contains(Lines(lines), lines[k] + "\n")
    decreases k
  {
    if k == 0 {
      var shown := lines[0] + "\n";
      assert Lines(lines) == shown + Lines(lines[1..]);
      assert Lines(lines)[..|shown|] == shown;
      ContainsAt(Lines(lines), shown, 0);
    } else {
      LineShown(lines[1..], k - 1);
      assert Lines(lines) == lines[0] + "\n" + Lines(lines[1..]);
      assert Lines(lines)[|lines[0] + "\n"|..] == Lines(lines[1..]);
      ContainsInSuffix(Lines(lines), lines[k] + "\n", |lines[0] + "\n"|);
    }
  }

  /**
   * Every field the enrichment fills in has a line of its own in the record's block:
   * the layer number, the size label, the empty flag, the age, the format error when
   * there is one, then the lines of the `created_by` field.
   */
  lemma EntryBlockLines(i: nat, e: HistoryEntry)
    requires '\n' !in e.layerSize && '\n' !in e.created
    requires e.shellFormatError.Some? ==> '\n' !in e.shellFormatError.value
    ensures SplitOn(EntryBlock(i, e), '\n') ==
      ["layer: " + NatToString(i + 1), "size: " + e.layerSize,
       "empty_layer: " + BoolText(e.emptyLayer), "created: " + e.created]
      + (if e.shellFormatError.Some? then ["shell format error: " + e.shellFormatError.value] else [])
      + SplitOn("created_by: " + CreatedByText(e.createdBy), '\n')
  {
    var fields := FieldLines(i, e);
    NoNewlineInNumberLine("layer: ", i + 1);
    assert '\n' !in BoolText(e.emptyLayer);
    assert forall k :: 0 <= k < |fields| ==> '\n' !in fields[k];
    SplitLines(fields, "created_by: " + CreatedByText(e.createdBy));
  }

  /**
   * Whatever the fields hold, the block shows each of them on a line of its own:
   * the size label, the empty flag and the age.
   */
  lemma EntryBlockShowsFields(i: nat, e: HistoryEntry)
    ensures Contains(EntryBlock(i, e), "size: " + e.layerSize + "\n")
    ensures Contains(EntryBlock(i, e), "empty_layer: " + BoolText(e.emptyLayer) + "\n")
    ensures Contains(EntryBlock(i, e), "created: " + e.created + "\n")
  {
    var fields := FieldLines(i, e);
    var createdBy := "created_by: " + CreatedByText(e.createdBy);
    forall k | 1 <= k < 4
      ensures Contains(EntryBlock(i, e), fields[k] + "\n")
    {
      LineShown(fields, k);
      ContainsInConcat("", Lines(fields), createdBy, fields[k] + "\n");
      assert "" + Lines(fields) + createdBy == EntryBlock(i, e);
    }
    assert fields[1] + "\n" == "size: " + e.layerSize + "\n";
    assert fields[2] + "\n" == "empty_layer: " + BoolText(e.emptyLayer) + "\n";
    assert fields[3] + "\n" == "created: " + e.created + "\n";
  }

  /** The blocks of all records, in order. */
  function EntryBlocks(es: seq<HistoryEntry>): string
  {
    if es == [] then "" else EntryBlocks(es[..|es| - 1]) + EntryBlock(|es| - 1, es[|es| - 1])
  }

  lemma EntryBlocksSnoc(es: seq<HistoryEntry>)
    requires es != []
    ensures EntryBlocks(es) == EntryBlocks(es[..|es| - 1]) + EntryBlock(|es| - 1, es[|es| - 1])
  {
  }

  /** The report's opening lines: two blank lines, then one line per count. */
  function LayerCounts(dataLayerCnt: nat, emptyLayerCnt: nat): (r: string)
    ensures SplitOn(r, '\n') ==
      ["", "", "Data layers: " + NatToString(dataLayerCnt), "Empty layers: " + NatToString(emptyLayerCnt), ""]
  {
    var data := "Data layers: " + NatToString(dataLayerCnt);
    var empty := "Empty layers: " + NatToString(emptyLayerCnt);
    NoNewlineInNumberLine("Data layers: ", dataLayerCnt);
    NoNewlineInNumberLine("Empty layers: ", emptyLayerCnt);
    var fourth := empty + "\n" + "";
    var third := data + "\n" + fourth;
    var second := "" + "\n" + third;
    assert SplitOn("", '\n') == [""];
    SplitFirstPiece(empty, "", '\n');
    SplitFirstPiece(data, fourth, '\n');
    SplitFirstPiece("", third, '\n');
    SplitFirstPiece("", second, '\n');
    "" + "\n" + second
  }

  /** A one-line label followed by a number holds no newline. */
  lemma NoNewlineInNumberLine(caption: string, n: nat)
    requires '\n' !in caption
    ensures '\n' !in caption + NatToString(n)
  {
    var digits := NatToString(n);
    assert forall j :: 0 <= j < |digits| ==> digits[j] != '\n';
  }

  /** The counts can be read back from the report: different counts print differently. */
  lemma LayerCountsDetermineCounts(data: nat, empty: nat, data': nat, empty': nat)
    requires LayerCounts(data, empty) == LayerCounts(data', empty')
    ensures data == data' && empty == empty'
  {
    var lines, lines' := SplitOn(LayerCounts(data, empty), '\n'), SplitOn(LayerCounts(data', empty'), '\n');
    assert lines[2] == lines'[2] && lines[3] == lines'[3];
    assert NatToString(data) == lines[2][|"Data layers: "|..] == NatToString(data');
    assert NatToString(empty) == lines[3][|"Empty layers: "|..] == NatToString(empty');
    NatToStringInjective(data, data');
    NatToStringInjective(empty, empty');
  }

  /**
   * The lines that follow the counts when the image's time stamp parses: the age on a
   * line of its own, two blank lines, the platform on a line of its own, a blank line.
   */
  function AgeAndPlatform(elapsed: string, platform: string): (r: string)
    ensures '\n' !in elapsed && '\n' !in platform ==>
      SplitOn(r, '\n') ==
        ["Last pushed: " + elapsed, "", "", "Layers history for platform: " + platform, "", ""]
  {
    var age := "Last pushed: " + elapsed;
    var target := "Layers history for platform: " + platform;
    var sixth := "" + "\n" + "";
    var fourth := target + "\n" + sixth;
    var third := "" + "\n" + fourth;
    var second := "" + "\n" + third;
    if '\n' !in elapsed && '\n' !in platform then
      assert '\n' !in age && '\n' !in target;
      assert SplitOn("", '\n') == [""];
      SplitFirstPiece("", "", '\n');
      SplitFirstPiece(target, sixth, '\n');
      SplitFirstPiece("", fourth, '\n');
      SplitFirstPiece("", third, '\n');
      SplitFirstPiece(age, second, '\n');
      age + "\n" + second
    else
      age + "\n" + second
  }

  lemma IndentLinesFirst(lines: seq<string>, tail: string)
    requires lines != []
    ensures IndentLines(lines) + tail == ("\t" + lines[0]) + "\n" + (IndentLines(lines[1..]) + tail)
  {
  }

  /** Lines without a newline split back, one by one, out of their indented rendering. */
  lemma {:induction false} SplitIndentLines(lines: seq<string>, tail: string)
    requires forall i :: 0 <= i < |lines| ==> '\n' !in lines[i]
    ensures SplitOn(IndentLines(lines) + tail, '\n') == Indented(lines) + SplitOn(tail, '\n')
    decreases |lines|
  {
    if lines == [] {
      assert IndentLines(lines) + tail == tail;
    } else {
      var head := "\t" + lines[0];
      var rest := IndentLines(lines[1..]) + tail;
      assert '\n' !in head by {
        assert '\n' !in lines[0];
      }
      calc {
        SplitOn(IndentLines(lines) + tail, '\n');
        { IndentLinesFirst(lines, tail); }
        SplitOn(head + "\n" + rest, '\n');
        { SplitFirstPiece(head, rest, '\n'); }
        [head] + SplitOn(rest, '\n');
        { SplitIndentLines(lines[1..], tail); }
        [head] + (Indented(lines[1..]) + SplitOn(tail, '\n'));
        ([head] + Indented(lines[1..])) + SplitOn(tail, '\n');
        Indented(lines) + SplitOn(tail, '\n');
      }
    }
  }

  /**
   * The `created_by` layout: a one-line command is printed inline followed by a blank
   * line; a multi-line command prints as "|", then each of its lines behind a tab, then
   * a blank line, so that its lines can be read back from the report.
   */
  lemma CreatedByLayout(createdBy: string)
    ensures '\n' !in createdBy ==> CreatedByText(createdBy) == createdBy + "\n\n"
    ensures '\n' in createdBy ==>
      SplitOn(CreatedByText(createdBy), '\n') == ["|"] + Indented(SplitOn(createdBy, '\n')) + ["", ""]
      && Join(SplitOn(createdBy, '\n'), '\n') == createdBy
  {
    ContainsChar(createdBy, '\n');
    if '\n' in createdBy {
      var lines := SplitOn(createdBy, '\n');
      SplitPiecesWithoutSeparator(createdBy, '\n');
      SplitBarBlock(lines);
      JoinSplit(createdBy, '\n');
    }
  }

  /** A lone newline separates two empty lines. */
  lemma SplitNewline()
    ensures SplitOn("\n", '\n') == ["", ""]
  {
    assert SplitOn("", '\n') == [""];
    SplitFirstPiece("", "", '\n');
    assert "" + "\n" + "" == "\n";
  }

  /** A `|` line followed by newline-free lines behind tabs and a blank line splits back into those lines. */
  lemma SplitBarBlock(lines: seq<string>)
    requires forall i :: 0 <= i < |lines| ==> '\n' !in lines[i]
    ensures SplitOn("|" + "\n" + (IndentLines(lines) + "\n"), '\n') == ["|"] + Indented(lines) + ["", ""]
  {
    calc {
      SplitOn("|" + "\n" + (IndentLines(lines) + "\n"), '\n');
      { SplitBarLine(IndentLines(lines) + "\n"); }
      ["|"] + SplitOn(IndentLines(lines) + "\n", '\n');
      { SplitIndentLines(lines, "\n"); }
      ["|"] + (Indented(lines) + SplitOn("\n", '\n'));
      { SplitNewline(); }
      ["|"] + (Indented(lines) + ["", ""]);
      ["|"] + Indented(lines) + ["", ""];
    }
  }

  /** A line holding only `|` splits off the front of a text. */
  lemma SplitBarLine(rest: string)
    ensures SplitOn("|" + "\n" + rest, '\n') == ["|"] + SplitOn(rest, '\n')
  {
    SplitFirstPiece("|", rest, '\n');
  }

  /** A stored formatter error is always shown in the record's block. */
  lemma FormatErrorShown(i: nat, e: HistoryEntry)
    requires e.shellFormatError.Some?
    ensures Contains(EntryBlock(i, e), "shell format error: " + e.shellFormatError.value + "\n")
  {
    var fields := FieldLines(i, e);
    LineShown(fields, 4);
    ContainsInConcat("", Lines(fields), "created_by: " + CreatedByText(e.createdBy), fields[4] + "\n");
    assert "" + Lines(fields) + ("created_by: " + CreatedByText(e.createdBy)) == EntryBlock(i, e);
  }

  /** The counting loop of `writeHistory`: every record is either a data layer or an empty one. */
  method CountLayers(es: array<HistoryEntry>) returns (dataLayerCnt: nat, emptyLayerCnt: nat)
    ensures dataLayerCnt == NonEmptyCount(es[..])
    ensures dataLayerCnt + emptyLayerCnt == es.Length
  {
    dataLayerCnt, emptyLayerCnt := 0, 0;
    for i := 0 to es.Length
      invariant dataLayerCnt == NonEmptyCount(es[..i])
      invariant dataLayerCnt + emptyLayerCnt == i
    {
      assert es[..i + 1] == es[..i] + [es[i]];
      NonEmptyCountConcat(es[..i], [es[i]]);
      if es[i].emptyLayer {
        emptyLayerCnt := emptyLayerCnt + 1;
      } else {
        dataLayerCnt := dataLayerCnt + 1;
      }
    }
    assert es[..es.Length] == es[..];
  }

  /** The loop of `writeHistory` that prints one block per record, in order. */
  method WriteEntries(es: array<HistoryEntry>) returns (out: string)
    ensures out == EntryBlocks(es[..])
  {
    out := "";
    for i := 0 to es.Length
      invariant out == EntryBlocks(es[..i])
    {
      EntryBlocksSnoc(es[..i + 1]);
      assert es[..i + 1][..i] == es[..i];
      out := out + EntryBlock(i, es[i]);
    }
    assert es[..es.Length] == es[..];
  }

  /**
   * `writeHistory`: the counts, then, if the image's own time stamp parses, its age, the
   * platform asked for and the block of every record; otherwise the counts and the error.
   */
  method WriteHistory(h: ImageHistory, platform: string, age: string -> Result<string, string>)
    returns (out: string, err: Option<string>)
    ensures var es := h.history[..];
      var counts := LayerCounts(NonEmptyCount(es), |es| - NonEmptyCount(es));
      && (err.Some? <==> age(h.created).Failure?)
      && (err.Some? ==> err.value == age(h.created).error && out == counts)
      && (err.None? ==> out == counts + AgeAndPlatform(age(h.created).value, platform) + EntryBlocks(es))
  {
    var dataLayerCnt, emptyLayerCnt := CountLayers(h.history);
    out := LayerCounts(dataLayerCnt, emptyLayerCnt);
    var createdTime := age(h.created);
    if createdTime.Failure? {
      return out, Some(createdTime.error);
    }
    var blocks := WriteEntries(h.history);
    out := out + AgeAndPlatform(createdTime.value, platform) + blocks;
    err := None;
  }
}
