/** Rendering a change set within a budget of UTF-8 bytes. */
module ByteBudget {
  import opened Common
  import opened Utf8

  // ---------------------------------------------------------------- truncation

  function AtLeastZero(n: int): nat { if n < 0 then 0 else n }

  /** What truncation leaves of `value`: all of it when it fits, else its longest prefix of whole scalars
      within the limit, without a leading byte order mark. */
  ghost function Truncated(value: seq<Scalar>, maxBytes: int): seq<Scalar> {
    if |Encode(value)| <= maxBytes then value else WithoutBom(value[..Fit(value, AtLeastZero(maxBytes))])
  }

  /** Below the longest fit the answer to "how many fit" does not change. */
  lemma FitIsStable(value: seq<Scalar>, limit: nat, end: nat)
    requires |Encode(value[..Fit(value, limit)])| <= end <= limit
    ensures Fit(value, end) == Fit(value, limit)
  {
    FitIsLongest(value, limit);
    FitIsLongest(value, end);
  }

  method TruncateUtf8(value: seq<Scalar>, maxBytes: int) returns (text: seq<Scalar>)
    ensures text == Truncated(value, maxBytes)
  {
    var bytes := Encode(value);
    if |bytes| <= maxBytes {
      return value;
    }
    var end := AtLeastZero(maxBytes);
    ghost var limit: nat := end;
    ghost var cut := value[..Fit(value, limit)];
    FitIsLongest(value, limit);
    while end != 0
      invariant 0 <= end <= limit <= |bytes|
      invariant |Encode(cut)| <= end && limit - 3 <= end
    {
      FitIsStable(value, limit, end);
      CutDecodes(value, end);
      FatalDropsBom(bytes[..end]);
      match DecodeFatal(bytes[..end]) {
        case Some(decoded) => return decoded;
        case None => end := end - 1;
      }
    }
    text := [];
    assert cut == [];
  }

  lemma NoRoomFitsNothing(value: seq<Scalar>)
    ensures Fit(value, 0) == 0
  {
    FitIsLongest(value, 0);
  }

  /** The truncated text is the longest fitting prefix itself unless a byte order mark leads a text that is cut, and
      nothing where there is no room at all. */
  lemma TruncationIsPrefixUnless(value: seq<Scalar>, maxBytes: int)
    requires |Encode(value)| > maxBytes
    ensures Truncated(value, maxBytes) == value[..Fit(value, AtLeastZero(maxBytes))]
       <==> !(maxBytes >= 3 && value[0] == BOM)
    ensures maxBytes <= 0 ==> Truncated(value, maxBytes) == []
  {
    if maxBytes <= 0 {
      NoRoomFitsNothing(value);
    }
    if value != [] {
      assert |Encode1(BOM)| == 3;
      assert value[0] == BOM && maxBytes >= 3 ==> Fit(value, AtLeastZero(maxBytes)) > 0;
    }
  }

  // ---------------------------------------------------------------- the rendered change set

  /** A file of the change set with the text of its patch, empty when there is none. */
  datatype FilePatch = FilePatch(path: string, patch: seq<Scalar>)

  datatype Rendered = Rendered(text: seq<Scalar>, files: seq<string>, changeCount: nat, truncated: bool)

  function Ascii(s: string): (text: seq<Scalar>)
    requires forall i :: 0 <= i < |s| ==> s[i] < 128 as char
    ensures |text| == |s| && forall i :: 0 <= i < |text| ==> text[i] < 0x80
  {
    seq(|s|, i requires 0 <= i < |s| => s[i] as int)
  }

  const MARKER: seq<Scalar> := Ascii("\n\n[patch truncated]")

  const SEPARATOR: seq<Scalar> := [10, 10]

  lemma {:induction false} AsciiTakesOneByteEach(text: seq<Scalar>)
    requires forall i :: 0 <= i < |text| ==> text[i] < 0x80
    ensures |Encode(text)| == |text|
  {
    if text != [] {
      AsciiTakesOneByteEach(text[1..]);
    }
  }

  function WithPatch(files: seq<FilePatch>): (kept: seq<FilePatch>)
    ensures forall file :: file in kept <==> file in files && file.patch != []
  {
    if files == [] then []
    else
      var rest := WithPatch(files[1..]);
      assert files == [files[0]] + files[1..];
      if files[0].patch == [] then rest else [files[0]] + rest
  }

  function JoinPatches(files: seq<FilePatch>): seq<Scalar> {
    if files == [] then []
    else if |files| == 1 then files[0].patch
    else files[0].patch + SEPARATOR + JoinPatches(files[1..])
  }

  /** Lists of patches in a row are joined in a row, with the separator between them, and one patch is itself. */
  lemma {:induction false} JoinedInOrder(a: seq<FilePatch>, b: seq<FilePatch>, file: FilePatch)
    ensures JoinPatches([]) == [] && JoinPatches([file]) == file.patch
    ensures a != [] && b != [] ==> JoinPatches(a + b) == JoinPatches(a) + SEPARATOR + JoinPatches(b)
  {
    if a != [] && b != [] {
      assert (a + b)[1..] == a[1..] + b;
      if |a| > 1 {
        JoinedInOrder(a[1..], b, file);
        assert JoinPatches(a + b) == a[0].patch + SEPARATOR + (JoinPatches(a[1..]) + SEPARATOR + JoinPatches(b));
      } else {
        assert a[1..] + b == b;
      }
    }
  }

  /** The files with a patch keep their order. */
  lemma {:induction false} KeptInOrder(a: seq<FilePatch>, b: seq<FilePatch>, file: FilePatch)
    ensures WithPatch([file]) == if file.patch == [] then [] else [file]
    ensures WithPatch(a + b) == WithPatch(a) + WithPatch(b)
  {
    if a == [] {
      assert a + b == b;
    } else {
      assert (a + b)[1..] == a[1..] + b;
      KeptInOrder(a[1..], b, file);
    }
  }

  function Paths(files: seq<FilePatch>): seq<string> {
    seq(|files|, i requires 0 <= i < |files| => files[i].path)
  }

  /** The whole text before any cut; `header` is the text in front, which names the number of files. */
  function WholeText(files: seq<FilePatch>, header: nat -> seq<Scalar>): seq<Scalar> {
    header(|WithPatch(files)|) + JoinPatches(WithPatch(files))
  }

  /** `text` is `whole` if that fits the budget; a cut text is a whole-scalar prefix, with the marker if that has
      room, and stays within the budget, whatever that is. */
  ghost predicate Budgeted(whole: seq<Scalar>, maxBytes: int, text: seq<Scalar>, truncated: bool) {
    && (truncated <==> |Encode(whole)| > maxBytes)
    && (!truncated ==> text == whole)
    && (truncated && maxBytes >= 19 ==> text == whole[..Fit(whole, maxBytes - 19)] + MARKER)
    && (truncated && maxBytes < 19 ==> text == whole[..Fit(whole, AtLeastZero(maxBytes))])
    && (maxBytes >= 0 ==> |Encode(text)| <= maxBytes)
  }

  lemma MarkerTakes19Bytes()
    ensures |Encode(MARKER)| == 19
  {
    AsciiTakesOneByteEach(MARKER);
  }

  lemma MarkedCutKeepsBudget(whole: seq<Scalar>, maxBytes: int)
    requires whole != [] && whole[0] != BOM && |Encode(whole)| > maxBytes >= 19
    ensures Budgeted(whole, maxBytes, Truncated(whole, maxBytes - 19) + MARKER, true)
  {
    MarkerTakes19Bytes();
    CutKeepsBudget(whole, maxBytes - 19);
    EncodeConcat(Truncated(whole, maxBytes - 19), MARKER);
  }

  method CutToBudget(whole: seq<Scalar>, maxBytes: int) returns (text: seq<Scalar>, truncated: bool)
    requires whole != [] && whole[0] != BOM
    ensures Budgeted(whole, maxBytes, text, truncated)
  {
    truncated := |Encode(whole)| > maxBytes;
    if !truncated {
      return whole, truncated;
    }
    MarkerTakes19Bytes();
    var markerBytes := |Encode(MARKER)|;
    if markerBytes <= maxBytes {
      text := TruncateUtf8(whole, maxBytes - markerBytes);
      MarkedCutKeepsBudget(whole, maxBytes);
      text := text + MARKER;
    } else {
      text := TruncateUtf8(whole, maxBytes);
      CutKeepsBudget(whole, maxBytes);
    }
  }

  /** `render_agent_change`: `None` when no file has a patch, otherwise the text of all patches within the budget. */
  method RenderAgentChange(files: seq<FilePatch>, header: nat -> seq<Scalar>, maxBytes: int)
    returns (r: Option<Rendered>)
    requires forall n :: header(n) != [] && header(n)[0] < 0x80
    ensures r == None <==> forall file :: file in files ==> file.patch == []
    ensures r.Some? ==> r.value.files == Paths(WithPatch(files)) && r.value.changeCount == |WithPatch(files)|
    ensures r.Some? ==> Budgeted(WholeText(files, header), maxBytes, r.value.text, r.value.truncated)
  {
    var rendered := WithPatch(files);
    if |rendered| == 0 {
      assert forall file :: file in files && file.patch != [] ==> file in rendered;
      return None;
    }
    assert rendered[0] in files && rendered[0].patch != [];
    var text, truncated := CutToBudget(WholeText(files, header), maxBytes);
    r := Some(Rendered(text, Paths(rendered), |rendered|, truncated));
  }

  lemma CutKeepsBudget(whole: seq<Scalar>, maxBytes: int)
    requires whole != [] && whole[0] != BOM && |Encode(whole)| > maxBytes
    ensures Truncated(whole, maxBytes) == whole[..Fit(whole, AtLeastZero(maxBytes))]
    ensures maxBytes >= 0 ==> |Encode(Truncated(whole, maxBytes))| <= maxBytes
  {
    TruncationIsPrefixUnless(whole, maxBytes);
    FitIsLongest(whole, AtLeastZero(maxBytes));
  }
}
