/**
 * The enrichment of an image's build history in history.go: every record gets the
 * size label of its layer (`updateLayerSize`), and its creation time and command are
 * rewritten for display (`prepareImageHistory`).
 */
module History {
  import opened Wrappers
  import opened Strings
  import opened Platform
  import opened ShellFormat

  /**
   * One element of `ImageHistory.History`. `created` holds the RFC 3339 time stamp
   * until it is replaced by a relative age; `layerSize` and `shellFormatError` are
   * filled in here, not decoded from the registry.
   */
  datatype HistoryEntry = HistoryEntry(
    created: string,
    createdBy: string,
    emptyLayer: bool,
    layerSize: string,
    shellFormatError: Option<string>)

  /** `ImageHistory`: the build steps, whose elements are updated in place, and the image's creation time. */
  class ImageHistory {
    var history: array<HistoryEntry>
    var created: string

    constructor (entries: seq<HistoryEntry>, created: string)
      ensures fresh(history) && history[..] == entries && this.created == created
    {
      history := new HistoryEntry[|entries|](i requires 0 <= i < |entries| => entries[i]);
      this.created := created;
    }
  }

  /** The number of records that have a data layer of their own. */
  function NonEmptyCount(es: seq<HistoryEntry>): (n: nat)
    ensures n <= |es|
  {
    if es == [] then 0 else (if es[0].emptyLayer then 0 else 1) + NonEmptyCount(es[1..])
  }

  lemma {:induction false} NonEmptyCountConcat(a: seq<HistoryEntry>, b: seq<HistoryEntry>)
    ensures NonEmptyCount(a + b) == NonEmptyCount(a) + NonEmptyCount(b)
    decreases |a|
  {
    if a != [] {
      assert (a + b)[1..] == a[1..] + b;
      NonEmptyCountConcat(a[1..], b);
    } else {
      assert a + b == b;
    }
  }

  /**
   * The correlation of the two sequences: walk the records and the layers together,
   * taking the next layer for each record with data and none for an empty record.
   */
  function Correlate(es: seq<HistoryEntry>, layers: seq<Layer>, bytesSize: int -> string): (r: seq<HistoryEntry>)
    requires NonEmptyCount(es) <= |layers|
    ensures |r| == |es|
  {
    if es == [] then []
    else if es[0].emptyLayer then
      [es[0].(layerSize := "0B")] + Correlate(es[1..], layers, bytesSize)
    else
      [es[0].(layerSize := bytesSize(layers[0].size))] + Correlate(es[1..], layers[1..], bytesSize)
  }

  /**
   * Record `i` with data gets the label of layer k, k being the number of records
   * with data before it; an empty record gets "0B"; nothing else in the record changes.
   */
  lemma {:induction false} CorrelateAt(es: seq<HistoryEntry>, layers: seq<Layer>, bytesSize: int -> string, i: nat)
    requires NonEmptyCount(es) <= |layers| && i < |es|
    ensures !es[i].emptyLayer ==> NonEmptyCount(es[..i]) < |layers|
    ensures Correlate(es, layers, bytesSize)[i] ==
      es[i].(layerSize := if es[i].emptyLayer then "0B" else bytesSize(layers[NonEmptyCount(es[..i])].size))
    decreases i
  {
    if i > 0 {
      var rest := if es[0].emptyLayer then layers else layers[1..];
      var shift := if es[0].emptyLayer then 0 else 1;
      assert NonEmptyCount(es) == shift + NonEmptyCount(es[1..]);
      CorrelateAt(es[1..], rest, bytesSize, i - 1);
      assert Correlate(es, layers, bytesSize)[i] == Correlate(es[1..], rest, bytesSize)[i - 1];
      assert es[1..][i - 1] == es[i];
      assert es[..i] == [es[0]] + es[1..][..i - 1];
      NonEmptyCountConcat([es[0]], es[1..][..i - 1]);
      assert NonEmptyCount(es[..i]) == shift + NonEmptyCount(es[1..][..i - 1]);
    } else {
      assert es[..0] == [];
      if !es[0].emptyLayer {
        assert NonEmptyCount(es) >= 1;
      }
    }
  }

  /**
   * Layers are consumed strictly in order: a later record with data uses a later layer.
   */
  lemma LayersConsumedInOrder(es: seq<HistoryEntry>, i: nat, j: nat)
    requires i < j <= |es| && !es[i].emptyLayer
    ensures NonEmptyCount(es[..i]) < NonEmptyCount(es[..j])
  {
    assert es[..j] == es[..i] + [es[i]] + es[i + 1..j];
    NonEmptyCountConcat(es[..i] + [es[i]], es[i + 1..j]);
    NonEmptyCountConcat(es[..i], [es[i]]);
  }

  /** Every layer up to the number of records with data is used by some record. */
  lemma {:induction false} EveryLayerUsed(es: seq<HistoryEntry>, k: nat) returns (i: nat)
    requires k < NonEmptyCount(es)
    ensures i < |es| && !es[i].emptyLayer && NonEmptyCount(es[..i]) == k
    decreases |es|
  {
    assert es[..0] == [];
    if es[0].emptyLayer || k > 0 {
      var rest := if es[0].emptyLayer then k else k - 1;
      var j := EveryLayerUsed(es[1..], rest);
      i := j + 1;
      assert es[..i] == [es[0]] + es[1..][..j];
      NonEmptyCountConcat([es[0]], es[1..][..j]);
    } else {
      i := 0;
    }
  }

  /** Layers beyond the records with data are ignored. */
  lemma {:induction false} SurplusLayersIgnored(es: seq<HistoryEntry>, layers: seq<Layer>, bytesSize: int -> string)
    requires NonEmptyCount(es) <= |layers|
    ensures Correlate(es, layers, bytesSize) == Correlate(es, layers[..NonEmptyCount(es)], bytesSize)
    decreases |es|
  {
    if es != [] {
      if es[0].emptyLayer {
        SurplusLayersIgnored(es[1..], layers, bytesSize);
        assert layers[..NonEmptyCount(es)] == layers[..NonEmptyCount(es[1..])];
      } else {
        SurplusLayersIgnored(es[1..], layers[1..], bytesSize);
        assert layers[..NonEmptyCount(es)][1..] == layers[1..][..NonEmptyCount(es[1..])];
      }
    }
  }

  /** Two records with data around an empty one, with layers of 100 and 250 bytes. */
  lemma CorrelateExample(bytesSize: int -> string)
    ensures var data := HistoryEntry("", "", false, "", None);
      var empty := HistoryEntry("", "", true, "", None);
      Correlate([data, empty, data], [Layer(100), Layer(250)], bytesSize)
        == [data.(layerSize := bytesSize(100)), empty.(layerSize := "0B"), data.(layerSize := bytesSize(250))]
  {
    var data := HistoryEntry("", "", false, "", None);
    var empty := HistoryEntry("", "", true, "", None);
    var es := [data, empty, data];
    var layers := [Layer(100), Layer(250)];
    assert es[1..] == [empty, data] && es[1..][1..] == [data] && es[1..][1..][1..] == [];
    assert NonEmptyCount([data]) == 1 by {
      assert [data][1..] == [];
    }
    assert NonEmptyCount([empty, data]) == 1;
    assert NonEmptyCount(es) == 2;
    assert es[..0] == [] && es[..1] == [data] && es[..2] == [data, empty];
    assert [data, empty][1..] == [empty];
    assert NonEmptyCount(es[..1]) == 1 && NonEmptyCount(es[..2]) == 1;
    CorrelateAt(es, layers, bytesSize, 0);
    CorrelateAt(es, layers, bytesSize, 1);
    CorrelateAt(es, layers, bytesSize, 2);
  }

  /**
   * `updateLayerSize`: label every record, in place, with a running count of the
   * records with data seen so far selecting the layer. The source indexes the layers
   * without a check, so there must be a layer for every record with data.
   */
  method UpdateLayerSize(h: ImageHistory, m: ImagePlatformManifest, bytesSize: int -> string)
    requires NonEmptyCount(h.history[..]) <= |m.layers|
    modifies h.history
    ensures h.history[..] == Correlate(old(h.history[..]), m.layers, bytesSize)
  {
    ghost var original := h.history[..];
    ghost var target := Correlate(original, m.layers, bytesSize);
    var dataLayerCnt := 0;
    for i := 0 to h.history.Length
      invariant dataLayerCnt == NonEmptyCount(original[..i])
      invariant forall k :: 0 <= k < i ==> h.history[k] == target[k]
      invariant forall k :: i <= k < h.history.Length ==> h.history[k] == original[k]
    {
      CorrelateAt(original, m.layers, bytesSize, i);
      assert original[..i + 1] == original[..i] + [original[i]];
      NonEmptyCountConcat(original[..i], [original[i]]);
      if !h.history[i].emptyLayer {
        h.history[i] := h.history[i].(layerSize := bytesSize(m.layers[dataLayerCnt].size));
        dataLayerCnt := dataLayerCnt + 1;
      } else {
        h.history[i] := h.history[i].(layerSize := "0B");
      }
    }
  }

  /**
   * Index of the first record whose time stamp does not parse, or the number of
   * records when all do. `age` parses an RFC 3339 time stamp (section 5.6 of RFC 3339)
   * and gives the humanised time elapsed since then, or the parse error.
   */
  function FirstUnparsable(es: seq<HistoryEntry>, age: string -> Result<string, string>): (k: nat)
    ensures k <= |es|
    ensures forall i :: 0 <= i < k ==> age(es[i].created).Success?
    ensures k < |es| ==> age(es[k].created).Failure?
  {
    if es == [] || age(es[0].created).Failure? then 0 else 1 + FirstUnparsable(es[1..], age)
  }

  /**
   * One step of `prepareImageHistory` on a record whose time stamp parsed to `elapsed`:
   * the age replaces the time stamp, and a command that is not a `#(nop)` metadata
   * instruction goes through the shell formatter unless formatting is switched off;
   * the formatter's error is stored only when it reports one.
   */
  function PrepareEntry(e: HistoryEntry, elapsed: string, noformat: bool,
                        parsePrint: string -> Result<string, string>): (r: HistoryEntry)
    ensures r.created == elapsed && r.emptyLayer == e.emptyLayer && r.layerSize == e.layerSize
    ensures Contains(e.createdBy, "#(nop)") || noformat ==>
      r.createdBy == e.createdBy && r.shellFormatError == e.shellFormatError
    ensures !Contains(e.createdBy, "#(nop)") && !noformat ==>
      r.createdBy == ShellFormatter(e.createdBy, parsePrint).text &&
      r.shellFormatError == (if ShellFormatter(e.createdBy, parsePrint).error.Some?
                             then ShellFormatter(e.createdBy, parsePrint).error
                             else e.shellFormatError)
  {
    var e1 := e.(created := elapsed);
    if !Contains(e.createdBy, "#(nop)") && !noformat then
      var f := ShellFormatter(e.createdBy, parsePrint);
      var e2 := e1.(createdBy := f.text);
      if f.error.Some? then e2.(shellFormatError := f.error) else e2
    else
      e1
  }

  /**
   * A record that starts without a format error ends with one only if its command was
   * eligible, names a shell and failed to parse; its command text is then kept as is.
   */
  lemma FormatErrorOnlyFromFailedShellParse(e: HistoryEntry, elapsed: string, noformat: bool,
                                            parsePrint: string -> Result<string, string>)
    requires e.shellFormatError.None?
    requires PrepareEntry(e, elapsed, noformat, parsePrint).shellFormatError.Some?
    ensures !noformat && !Contains(e.createdBy, "#(nop)")
    ensures Contains(ShellName(e.createdBy), "sh") && parsePrint(e.createdBy).Failure?
    ensures PrepareEntry(e, elapsed, noformat, parsePrint) ==
      e.(created := elapsed, shellFormatError := Some(parsePrint(e.createdBy).error))
  {
  }

  /**
   * `prepareImageHistory`: rewrite the records in order; stop with the error of the
   * first time stamp that does not parse, leaving the records before it rewritten and
   * it and the records after it untouched. Formatter errors are stored, not returned.
   */
  method PrepareImageHistory(h: ImageHistory, noformat: bool, age: string -> Result<string, string>,
                             parsePrint: string -> Result<string, string>) returns (err: Option<string>)
    modifies h.history
    ensures var k := FirstUnparsable(old(h.history[..]), age);
      && (err.None? <==> k == h.history.Length)
      && (err.Some? ==> err.value == age(old(h.history[k]).created).error)
      && (forall i :: 0 <= i < k ==>
            h.history[i] == PrepareEntry(old(h.history[i]), age(old(h.history[i]).created).value, noformat, parsePrint))
      && (forall i :: k <= i < h.history.Length ==> h.history[i] == old(h.history[i]))
  {
    ghost var original := h.history[..];
    ghost var k := FirstUnparsable(original, age);
    for i := 0 to h.history.Length
      invariant i <= k
      invariant forall j :: 0 <= j < i ==>
        h.history[j] == PrepareEntry(original[j], age(original[j].created).value, noformat, parsePrint)
      invariant forall j :: i <= j < h.history.Length ==> h.history[j] == original[j]
    {
      var value := h.history[i];
      var createdTime := age(value.created);
      if createdTime.Failure? {
        assert i == k;
        return Some(createdTime.error);
      }
      assert i < k;
      h.history[i] := PrepareEntry(value, createdTime.value, noformat, parsePrint);
    }
    assert k == h.history.Length;
    return None;
  }
}
