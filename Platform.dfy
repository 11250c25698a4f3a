/**
 * The platform specifier of util.go: the `os/arch[/variant]` string a user passes
 * on the command line or that is rebuilt from an image index entry, and the
 * per-platform layer list whose sizes are summed for the platform table.
 */
module Platform {
  import opened Wrappers
  import opened Strings

  /** `ImagePlatform`; it also stands for the parsed `v1.Platform`, of which only these three fields are set. */
  datatype ImagePlatform = ImagePlatform(architecture: string, os: string, variant: string)

  /** One entry of a platform manifest's `layers` array. */
  datatype Layer = Layer(size: int)

  /** `ImagePlatformManifest`: the layers of one platform, in order. */
  datatype ImagePlatformManifest = ImagePlatformManifest(layers: seq<Layer>)

  /** `parsePlatform`: split on every `/` and accept two or three pieces, empty ones included. */
  function ParsePlatform(s: string): (r: Result<ImagePlatform, string>)
    ensures r.Failure? <==> Count(s, '/') < 1 || Count(s, '/') > 2
    ensures r.Failure? && Count(s, '/') < 1 ==>
      r.error == "failed to parse platform '" + s + "': expected format os/arch[/variant]"
    ensures r.Failure? && Count(s, '/') > 2 ==>
      r.error == "failed to parse platform '" + s + "': too many slashes"
    ensures r.Success? ==> '/' !in r.value.os && '/' !in r.value.architecture && '/' !in r.value.variant
    ensures r.Success? && Count(s, '/') == 1 ==> r.value.variant == ""
  {
    var parts := SplitOn(s, '/');
    SplitPiecesWithoutSeparator(s, '/');
    if |parts| < 2 then
      Failure("failed to parse platform '" + s + "': expected format os/arch[/variant]")
    else if |parts| > 3 then
      Failure("failed to parse platform '" + s + "': too many slashes")
    else
      Success(ImagePlatform(parts[1], parts[0], if |parts| > 2 then parts[2] else ""))
  }

  /**
   * `platformToString`: `os/arch` only when both are set, then `/variant` whenever the
   * variant is set; the empty string exactly when there is nothing to print.
   */
  function PlatformToString(p: ImagePlatform): (r: string)
    ensures r == "" <==> (p.os == "" || p.architecture == "") && p.variant == ""
    ensures p.os != "" && p.architecture != "" ==> p.os + "/" + p.architecture <= r
    ensures p.variant != "" ==> |p.variant| < |r| && r[|r| - |p.variant| - 1..] == "/" + p.variant
  {
    var head := if p.os != "" && p.architecture != "" then p.os + "/" + p.architecture else "";
    if p.variant != "" then head + "/" + p.variant else head
  }

  /** A successful parse gives back the pieces of the string, separators in between. */
  lemma ParsedPlatformRebuildsString(s: string)
    requires ParsePlatform(s).Success?
    ensures var p := ParsePlatform(s).value;
      s == if Count(s, '/') == 1 then p.os + "/" + p.architecture
           else p.os + "/" + p.architecture + "/" + p.variant
  {
    var parts := SplitOn(s, '/');
    JoinSplit(s, '/');
    if |parts| == 2 {
      assert Join(parts, '/') == parts[0] + "/" + Join(parts[1..], '/');
    } else {
      assert Join(parts, '/') == parts[0] + "/" + Join(parts[1..], '/');
      assert Join(parts[1..], '/') == parts[1] + "/" + Join(parts[2..], '/');
    }
  }

  /** Two slash-free pieces joined by a slash parse back to os and architecture. */
  lemma ParseTwoPieces(os: string, arch: string)
    requires '/' !in os && '/' !in arch
    ensures ParsePlatform(os + "/" + arch) == Success(ImagePlatform(arch, os, ""))
  {
    SplitWithoutSeparator(arch, '/');
    SplitFirstPiece(os, arch, '/');
  }

  /** Three slash-free pieces joined by slashes parse back to os, architecture and variant. */
  lemma ParseThreePieces(os: string, arch: string, variant: string)
    requires '/' !in os && '/' !in arch && '/' !in variant
    ensures ParsePlatform(os + "/" + arch + "/" + variant) == Success(ImagePlatform(arch, os, variant))
  {
    SplitWithoutSeparator(variant, '/');
    SplitFirstPiece(arch, variant, '/');
    assert os + "/" + arch + "/" + variant == os + "/" + (arch + "/" + variant);
    SplitFirstPiece(os, arch + "/" + variant, '/');
  }

  /** Round trip: a fully populated, slash-free platform survives formatting and parsing. */
  lemma PlatformRoundTrip(p: ImagePlatform)
    requires p.os != "" && p.architecture != ""
    requires '/' !in p.os && '/' !in p.architecture && '/' !in p.variant
    ensures ParsePlatform(PlatformToString(p)) == Success(p)
  {
    if p.variant == "" {
      ParseTwoPieces(p.os, p.architecture);
    } else {
      ParseThreePieces(p.os, p.architecture, p.variant);
    }
  }

  /**
   * The other round trip: a parsed string with both os and arch set is reproduced by
   * formatting, unless it was `os/arch/` (three pieces, the last one empty).
   */
  lemma StringRoundTrip(s: string)
    requires ParsePlatform(s).Success?
    requires ParsePlatform(s).value.os != "" && ParsePlatform(s).value.architecture != ""
    requires Count(s, '/') == 1 || ParsePlatform(s).value.variant != ""
    ensures PlatformToString(ParsePlatform(s).value) == s
  {
    ParsedPlatformRebuildsString(s);
  }

  /**
   * A platform lacking os or architecture and without variant formats to "", which
   * `parsePlatform` rejects: this is how the platform table aborts on such an index entry.
   */
  lemma IncompletePlatformIsRejected(p: ImagePlatform)
    requires (p.os == "" || p.architecture == "") && p.variant == ""
    ensures PlatformToString(p) == ""
    ensures ParsePlatform(PlatformToString(p)) ==
      Failure("failed to parse platform '': expected format os/arch[/variant]")
  {
    assert SplitOn("", '/') == [""];
    assert "failed to parse platform '" + "" + "': expected format os/arch[/variant]"
        == "failed to parse platform '': expected format os/arch[/variant]";
  }

  /**
   * A platform lacking os or architecture but carrying a variant formats to "/variant",
   * which parses as an empty os with the variant taken for the architecture.
   */
  lemma VariantOnlyPlatformIsMisread(p: ImagePlatform)
    requires (p.os == "" || p.architecture == "") && p.variant != "" && '/' !in p.variant
    ensures PlatformToString(p) == "/" + p.variant
    ensures ParsePlatform(PlatformToString(p)) == Success(ImagePlatform(p.variant, "", ""))
  {
    SplitWithoutSeparator(p.variant, '/');
    SplitFirstPiece("", p.variant, '/');
    assert "" + "/" + p.variant == "/" + p.variant;
  }

  /** Empty pieces are accepted: "/" is an empty os with an empty architecture. */
  lemma EmptySegmentsAccepted()
    ensures ParsePlatform("/") == Success(ImagePlatform("", "", ""))
  {
  }

  /** The total of the layer sizes, summed from the first layer to the last. */
  function TotalSize(layers: seq<Layer>): int
  {
    if layers == [] then 0 else TotalSize(layers[..|layers| - 1]) + layers[|layers| - 1].size
  }

  lemma {:induction false} TotalSizeConcat(a: seq<Layer>, b: seq<Layer>)
    ensures TotalSize(a + b) == TotalSize(a) + TotalSize(b)
    decreases |b|
  {
    if b != [] {
      assert (a + b)[..|a + b| - 1] == a + b[..|b| - 1];
      TotalSizeConcat(a, b[..|b| - 1]);
    } else {
      assert a + b == a;
    }
  }

  /** The total does not depend on the order of the layers. */
  lemma {:induction false} TotalSizeOrderIndependent(a: seq<Layer>, b: seq<Layer>)
    requires multiset(a) == multiset(b)
    ensures TotalSize(a) == TotalSize(b)
    decreases |a|
  {
    if a != [] {
      var x := a[|a| - 1];
      assert x in multiset(b);
      var j :| 0 <= j < |b| && b[j] == x;
      var rest := b[..j] + b[j + 1..];
      assert b == b[..j] + [x] + b[j + 1..];
      assert a == a[..|a| - 1] + [x];
      assert multiset(a[..|a| - 1]) == multiset(rest) by {
        calc {
          multiset(a[..|a| - 1]) + multiset{x};
          multiset(a[..|a| - 1]) + multiset([x]);
          multiset(a[..|a| - 1] + [x]);
          multiset(b);
          multiset(b[..j] + [x] + b[j + 1..]);
          multiset(b[..j]) + multiset([x]) + multiset(b[j + 1..]);
          multiset(rest) + multiset{x};
        }
        assert multiset(a[..|a| - 1]) == multiset(a[..|a| - 1]) + multiset{x} - multiset{x};
        assert multiset(rest) == multiset(rest) + multiset{x} - multiset{x};
      }
      TotalSizeOrderIndependent(a[..|a| - 1], rest);
      TotalSizeConcat(b[..j] + [x], b[j + 1..]);
      TotalSizeConcat(b[..j], [x]);
      TotalSizeConcat(b[..j], b[j + 1..]);
      assert TotalSize([x]) == x.size by {
        assert [x][..0] == [];
      }
    } else {
      assert b == [];
    }
  }

  /** `imagePlatformSize`: the size label of the sum of all layer sizes. */
  method ImagePlatformSize(m: ImagePlatformManifest, bytesSize: int -> string) returns (sizeText: string)
    ensures sizeText == bytesSize(TotalSize(m.layers))
  {
    var sum := 0;
    for i := 0 to |m.layers|
      invariant sum == TotalSize(m.layers[..i])
    {
      assert m.layers[..i + 1][..i] == m.layers[..i];
      sum := sum + m.layers[i].size;
    }
    assert m.layers[..|m.layers|] == m.layers;
    sizeText := bytesSize(sum);
  }
}
