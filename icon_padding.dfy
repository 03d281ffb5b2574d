/** custom_components/varsom/add_more_padding.py: enlarge the 32x32 warning
    icons to a 48x48 canvas with 8 pixels of padding, and write the module of
    base64 data URLs that the integration loads.

    The SVG rewrite is three regular-expression substitutions; the module
    text is assembled from a header, one line per icon and a closing brace.
    Reading the icon directory, base64 encoding and writing the file are
    outside the model: the files come in as a sorted sequence of stems and
    contents, and `encode` stands for base64 encoding. */
module IconPadding {
  import opened Json
  import opened Text

  const Padding: nat := 8
  const OriginalSize: nat := 32
  const NewSize: nat := OriginalSize + Padding * 2

  /** The sizes as they appear in the rewritten text. */
  lemma SizeTexts()
    ensures NewSize == 48
    ensures NatToDecimal(NewSize) == "48" && NatToDecimal(Padding) == "8" && NatToDecimal(OriginalSize) == "32"
  {
    assert NatToDecimal(4) == "4";
    assert NatToDecimal(3) == "3";
  }

  const OldWidth := "width=\"32\""
  const NewWidth := "width=\"48\""
  const OldHeight := "height=\"32\""
  const NewHeight := "height=\"48\""
  const SvgOpen := "<svg"
  /** Inserted before the `>` that closes an `<svg` tag. */
  const ViewBoxAttr := " viewBox=\"-8 -8 48 48\""

  /** The first `>` of `s` at or after `from`. */
  function NextGt(s: string, from: nat): (r: Option<nat>)
    requires from <= |s|
    ensures r.Some? ==> (from <= r.value < |s| && s[r.value] == '>' &&
      forall j :: from <= j < r.value ==> s[j] != '>')
    ensures r.None? ==> forall j :: from <= j < |s| ==> s[j] != '>'
    decreases |s| - from
  {
    if from == |s| then None
    else if s[from] == '>' then Some(from)
    else NextGt(s, from + 1)
  }

  /** `re.sub(r'(<svg[^>]*?)>', r'\1 viewBox="-8 -8 48 48">', s)`: scanning
      left to right, an `<svg` with a `>` somewhere after it has the
      attribute inserted before the first such `>`; scanning resumes after
      that `>`. */
  function InsertViewBox(s: string): string
    decreases |s|
  {
    if |s| == 0 then s
    else if IsPrefix(SvgOpen, s) && NextGt(s, |SvgOpen|).Some? then
      var k := NextGt(s, |SvgOpen|).value;
      s[..k] + ViewBoxAttr + ">" + InsertViewBox(s[k + 1..])
    else [s[0]] + InsertViewBox(s[1..])
  }

  /** Lines 13-34: widths, then heights, then the viewBox. */
  function AddPaddingToSvg(svg: string): string
  {
    InsertViewBox(ReplaceAll(ReplaceAll(svg, OldWidth, NewWidth), OldHeight, NewHeight))
  }

  predicate Lacks(s: string, c: char)
  {
    forall i :: 0 <= i < |s| ==> s[i] != c
  }

  /** A prefix of the rewritten text that contains no space is a prefix of
      the input: the rewrite only inserts text that starts with a space. */
  lemma {:induction false} InsertViewBoxPrefix(t: string, u: string)
    requires Lacks(u, ' ')
    requires IsPrefix(u, InsertViewBox(t))
    ensures IsPrefix(u, t)
    decreases |t|
  {
    if |t| == 0 || |u| == 0 {
    } else if IsPrefix(SvgOpen, t) && NextGt(t, |SvgOpen|).Some? {
      var k := NextGt(t, |SvgOpen|).value;
      var out := InsertViewBox(t);
      var rest := InsertViewBox(t[k + 1..]);
      assert out == t[..k] + ViewBoxAttr + ">" + rest;
      assert out[k] == ' ';
      assert |u| <= k;
      assert u == out[..|u|] == t[..k][..|u|];
    } else {
      var rest := InsertViewBox(t[1..]);
      assert InsertViewBox(t) == [t[0]] + rest;
      assert IsPrefix(u[1..], rest) by {
        assert rest[..|u| - 1] == InsertViewBox(t)[1..|u|];
      }
      InsertViewBoxPrefix(t[1..], u[1..]);
      assert t[..|u|] == [t[0]] + t[1..][..|u| - 1];
    }
  }

  /** An occurrence of `q` in a tag's rewrite lies in the copied front part
      or inside the inserted attribute, or in the rewritten rest, when `q` has
      no space and no `>` and the attribute starts with a space. */
  lemma TagPieces(front: string, attr: string, rest: string, q: string, i: int)
    requires |attr| > 0 && attr[0] == ' '
    requires |q| > 0 && Lacks(q, ' ') && Lacks(q, '>')
    requires OccursAt(front + attr + ">" + rest, q, i)
    ensures || OccursAt(front, q, i)
            || OccursAt(attr, q, i - |front|)
            || OccursAt(rest, q, i - (|front| + |attr| + 1))
  {
    var out := front + attr + ">" + rest;
    var k := |front|;
    var a := |attr|;
    assert out[k] == ' ';
    assert out[k + a] == '>';
    if i < k {
      StopsBefore(out, q, i, ' ', k);
      assert out[..k] == front;
      assert out[i..i + |q|] == front[i..i + |q|];
    } else if i <= k + a {
      StopsBefore(out, q, i, '>', k + a);
      assert out[k..k + a] == attr;
      assert out[i..i + |q|] == attr[i - k..i - k + |q|];
    } else {
      assert out[k + a + 1..] == rest;
      assert out[i..i + |q|] == rest[i - (k + a + 1)..i - (k + a + 1) + |q|];
    }
  }

  /** An occurrence of a text lacking `c` ends before any `c` at or after
      its start. */
  lemma StopsBefore(s: string, q: string, i: int, c: char, m: int)
    requires OccursAt(s, q, i) && Lacks(q, c)
    requires i <= m < |s| && s[m] == c
    ensures i + |q| <= m
  {
  }

  lemma OccursAtPrefix(s: string, n: nat, q: string, i: int)
    requires n <= |s|
    requires OccursAt(s[..n], q, i)
    ensures OccursAt(s, q, i)
  {
    assert s[i..i + |q|] == s[..n][i..i + |q|];
  }

  /** `q` can appear in the rewritten text only where it appeared before,
      when it has no space and no `>` and does not fit inside the attribute. */
  lemma {:induction false} InsertViewBoxExcludesAt(s: string, q: string, i: int)
    requires |q| > 0 && Lacks(q, ' ') && Lacks(q, '>')
    requires !Occurs(ViewBoxAttr, q)
    requires !Occurs(s, q)
    ensures !OccursAt(InsertViewBox(s), q, i)
    decreases |s|
  {
    var out := InsertViewBox(s);
    if |s| == 0 || !OccursAt(out, q, i) {
    } else if IsPrefix(SvgOpen, s) && NextGt(s, |SvgOpen|).Some? {
      var k := NextGt(s, |SvgOpen|).value;
      var rest := InsertViewBox(s[k + 1..]);
      assert out == s[..k] + ViewBoxAttr + ">" + rest;
      TagPieces(s[..k], ViewBoxAttr, rest, q, i);
      assert !OccursAt(ViewBoxAttr, q, i - k);
      if OccursAt(s[..k], q, i) {
        OccursAtPrefix(s, k, q, i);
        assert false;
      }
      OccursSuffix(s, q, k + 1);
      InsertViewBoxExcludesAt(s[k + 1..], q, i - (k + |ViewBoxAttr| + 1));
    } else {
      var rest := InsertViewBox(s[1..]);
      assert out == [s[0]] + rest;
      OccursSuffix(s, q, 1);
      if i == 0 {
        CopiedHead(s, rest, q);
      } else {
        InsertViewBoxExcludesAt(s[1..], q, i - 1);
      }
    }
  }

  /** At the front of a copied character, `q` is an occurrence in the input. */
  lemma CopiedHead(s: string, rest: string, q: string)
    requires |s| > 0 && |q| > 0 && Lacks(q, ' ')
    requires rest == InsertViewBox(s[1..])
    requires OccursAt([s[0]] + rest, q, 0)
    ensures OccursAt(s, q, 0)
  {
    var out := [s[0]] + rest;
    assert IsPrefix(q[1..], rest) by {
      assert rest[..|q| - 1] == out[1..|q|];
    }
    InsertViewBoxPrefix(s[1..], q[1..]);
    assert s[..|q|] == [s[0]] + s[1..][..|q| - 1];
  }

  lemma InsertViewBoxExcludes(s: string, q: string)
    requires |q| > 0 && Lacks(q, ' ') && Lacks(q, '>')
    requires !Occurs(ViewBoxAttr, q)
    requires !Occurs(s, q)
    ensures !Occurs(InsertViewBox(s), q)
  {
    forall i ensures !OccursAt(InsertViewBox(s), q, i) {
      InsertViewBoxExcludesAt(s, q, i);
    }
  }

  /** Text without `<svg` passes the third substitution unchanged. */
  lemma {:induction false} InsertViewBoxIdentity(s: string)
    requires !Occurs(s, SvgOpen)
    ensures InsertViewBox(s) == s
    decreases |s|
  {
    if |s| > 0 {
      assert !OccursAt(s, SvgOpen, 0);
      OccursSuffix(s, SvgOpen, 1);
      InsertViewBoxIdentity(s[1..]);
      assert s == [s[0]] + s[1..];
    }
  }

  /** An `<svg ...>` tag followed by text gets the attribute before its `>`;
      the text after it is rewritten in turn. */
  lemma InsertViewBoxAtTag(attrs: string, rest: string)
    requires Lacks(attrs, '>')
    ensures InsertViewBox(SvgOpen + attrs + ">" + rest) == SvgOpen + attrs + ViewBoxAttr + ">" + InsertViewBox(rest)
  {
    var s := SvgOpen + attrs + ">" + rest;
    var k := |SvgOpen| + |attrs|;
    assert IsPrefix(SvgOpen, s);
    assert s[k] == '>';
    assert NextGt(s, |SvgOpen|) == Some(k) by {
      NextGtAt(s, |SvgOpen|, k);
    }
    assert s[..k] == SvgOpen + attrs;
    assert s[k + 1..] == rest;
  }

  lemma {:induction false} NextGtAt(s: string, from: nat, k: nat)
    requires from <= k < |s| && s[k] == '>'
    requires forall j :: from <= j < k ==> s[j] != '>'
    ensures NextGt(s, from) == Some(k)
    decreases k - from
  {
    if from < k {
      NextGtAt(s, from + 1, k);
    }
  }

  lemma Mismatch(a: string, b: string, j: nat)
    requires j < |a| && j < |b| && a[j] != b[j]
    ensures !Compatible(a, b)
  {
    var m := if |a| < |b| then |a| else |b|;
    assert a[..m][j] == a[j];
    assert b[..m][j] == b[j];
  }

  /** `q` cannot occur in `s` when some character of `q` is missing from `s`. */
  lemma MissingCharExcludes(s: string, q: string, j: nat)
    requires j < |q| && Lacks(s, q[j])
    ensures !Occurs(s, q)
  {
    forall i | 0 <= i <= |s| - |q| ensures !OccursAt(s, q, i) {
      assert s[i..i + |q|][j] == s[i + j];
    }
  }

  /** The width substitution cannot produce a new `width="32"`. */
  lemma WidthRewriteSafe()
    ensures NoSeam(OldWidth[1..], NewWidth)
    ensures forall k :: 0 <= k < |NewWidth| ==> !Compatible(NewWidth[k..], OldWidth)
  {
    var u := OldWidth[1..];
    forall k | 0 <= k < |u| ensures !Compatible(u[k..], NewWidth) {
      Mismatch(u[k..], NewWidth, 0);
    }
    forall k | 0 <= k < |NewWidth| ensures !Compatible(NewWidth[k..], OldWidth) {
      if k == 0 {
        Mismatch(NewWidth, OldWidth, 7);
      } else {
        Mismatch(NewWidth[k..], OldWidth, 0);
      }
    }
  }

  /** The height substitution cannot produce a new `height="32"`. */
  lemma HeightRewriteSafe()
    ensures NoSeam(OldHeight[1..], NewHeight)
    ensures forall k :: 0 <= k < |NewHeight| ==> !Compatible(NewHeight[k..], OldHeight)
  {
    var u := OldHeight[1..];
    forall k | 0 <= k < |u| ensures !Compatible(u[k..], NewHeight) {
      if k == 3 {
        Mismatch(u[k..], NewHeight, 1);
      } else {
        Mismatch(u[k..], NewHeight, 0);
      }
    }
    forall k | 0 <= k < |NewHeight| ensures !Compatible(NewHeight[k..], OldHeight) {
      if k == 0 {
        Mismatch(NewHeight, OldHeight, 8);
      } else if k == 4 {
        Mismatch(NewHeight[k..], OldHeight, 1);
      } else {
        Mismatch(NewHeight[k..], OldHeight, 0);
      }
    }
  }

  /** The height substitution cannot produce a `width="32"` either. */
  lemma HeightRewriteKeepsWidth()
    ensures NoSeam(OldWidth[1..], NewHeight)
    ensures forall k :: 0 <= k < |NewHeight| ==> !Compatible(NewHeight[k..], OldWidth)
  {
    var w := OldWidth[1..];
    forall k | 0 <= k < |w| ensures !Compatible(w[k..], NewHeight) {
      if k == 3 {
        Mismatch(w[k..], NewHeight, 1);
      } else {
        Mismatch(w[k..], NewHeight, 0);
      }
    }
    forall k | 0 <= k < |NewHeight| ensures !Compatible(NewHeight[k..], OldWidth) {
      Mismatch(NewHeight[k..], OldWidth, 0);
    }
  }

  /** The old sizes can be neither inside the viewBox attribute nor across it. */
  lemma OldSizesAvoidViewBox()
    ensures Lacks(OldWidth, ' ') && Lacks(OldWidth, '>') && !Occurs(ViewBoxAttr, OldWidth)
    ensures Lacks(OldHeight, ' ') && Lacks(OldHeight, '>') && !Occurs(ViewBoxAttr, OldHeight)
  {
    assert OldWidth[7] == '3' && Lacks(ViewBoxAttr, '3');
    MissingCharExcludes(ViewBoxAttr, OldWidth, 7);
    assert OldHeight[8] == '3';
    MissingCharExcludes(ViewBoxAttr, OldHeight, 8);
  }

  /** After padding, no `width="32"` and no `height="32"` is left anywhere. */
  lemma PaddedHasNoOldSize(svg: string)
    ensures !Occurs(AddPaddingToSvg(svg), OldWidth)
    ensures !Occurs(AddPaddingToSvg(svg), OldHeight)
  {
    var s1 := ReplaceAll(svg, OldWidth, NewWidth);
    var s2 := ReplaceAll(s1, OldHeight, NewHeight);
    WidthRewriteSafe();
    HeightRewriteSafe();
    HeightRewriteKeepsWidth();
    ReplaceAllExcludes(svg, OldWidth, NewWidth, OldWidth);
    ReplaceAllExcludes(s1, OldHeight, NewHeight, OldWidth);
    ReplaceAllExcludes(s1, OldHeight, NewHeight, OldHeight);
    OldSizesAvoidViewBox();
    InsertViewBoxExcludes(s2, OldWidth);
    InsertViewBoxExcludes(s2, OldHeight);
  }

  /** An SVG without the old sizes and without an `<svg` tag comes back
      unchanged; an existing viewBox is not looked for. */
  lemma PlainSvgUnchanged(svg: string)
    requires !Occurs(svg, OldWidth) && !Occurs(svg, OldHeight) && !Occurs(svg, SvgOpen)
    ensures AddPaddingToSvg(svg) == svg
  {
    ReplaceAllIdentity(svg, OldWidth, NewWidth);
    ReplaceAllIdentity(svg, OldHeight, NewHeight);
    InsertViewBoxIdentity(svg);
  }

  /** Text before the pattern that cannot start it is copied through. */
  lemma {:induction false} CopiedLead(x: string, t: string, p: string, r: string)
    requires |p| > 0 && Lacks(x, p[0])
    ensures ReplaceAll(x + t, p, r) == x + ReplaceAll(t, p, r)
    decreases |x|
  {
    if |x| > 0 {
      var s := x + t;
      assert s[0] == x[0] && s[1..] == x[1..] + t;
      CopiedLead(x[1..], t, p, r);
      if |s| < |p| {
        assert ReplaceAll(t, p, r) == t;
        assert ReplaceAll(s, p, r) == s;
      } else {
        assert s[..|p|][0] != p[0];
        assert ReplaceAll(s, p, r) == [x[0]] + ReplaceAll(x[1..] + t, p, r);
        assert x == [x[0]] + x[1..];
      }
    } else {
      assert x + t == t;
    }
  }

  /** Every old width is rewritten, also inside a longer attribute name. */
  lemma StrokeWidthRewritten(rest: string)
    requires !Occurs(rest, OldWidth)
    ensures ReplaceAll(OldWidth + rest, OldWidth, NewWidth) == NewWidth + rest
    ensures ReplaceAll("stroke-" + OldWidth, OldWidth, NewWidth) == "stroke-" + NewWidth
  {
    ReplaceAllPrefixedOnce(rest, OldWidth, NewWidth);
    ReplaceAllPrefixedOnce("", OldWidth, NewWidth);
    assert OldWidth + "" == OldWidth && NewWidth + "" == NewWidth;
    CopiedLead("stroke-", OldWidth, OldWidth, NewWidth);
  }

  // ---------------------------------------------------------------------
  // process_icons (lines 36-75).

  /** An icon file as listed by the directory glob: its stem and its text. */
  datatype SvgFile = SvgFile(stem: string, content: string)

  const IconPrefix := "icon-warning-"
  const DataUrlPrefix := "data:image/svg+xml;base64,"

  /** Line 43: the stem with every "icon-warning-" removed. */
  function IconKey(stem: string): string
  {
    ReplaceAll(stem, IconPrefix, "")
  }

  /** The usual stem gives the name after the prefix. */
  lemma IconKeyOfPrefixed(name: string)
    requires !Occurs(name, IconPrefix)
    ensures IconKey(IconPrefix + name) == name
  {
    ReplaceAllPrefixedOnce(name, IconPrefix, "");
  }

  lemma IconKeyExample()
    ensures IconKey("icon-warning-flood-orange") == "flood-orange"
  {
    var name := "flood-orange";
    assert !Occurs(name, IconPrefix);
    assert IconPrefix + name == "icon-warning-flood-orange";
    IconKeyOfPrefixed(name);
  }

  /** Lines 47-51: the padded SVG as a data URL; `encode` is base64. */
  function DataUrl(content: string, encode: string -> string): string
  {
    DataUrlPrefix + encode(AddPaddingToSvg(content))
  }

  /** The keys of the `icons` dict in insertion order: each key where a file
      first produced it. */
  function KeyOrder(files: seq<SvgFile>): (r: seq<string>)
    ensures forall i, j :: 0 <= i < j < |r| ==> r[i] != r[j]
    ensures forall k :: k in r <==> exists i :: 0 <= i < |files| && IconKey(files[i].stem) == k
    decreases |files|
  {
    if files == [] then []
    else
      var front := files[..|files| - 1];
      var ks := KeyOrder(front);
      var k := IconKey(files[|files| - 1].stem);
      assert forall i :: 0 <= i < |front| ==> front[i] == files[i];
      if k in ks then ks else ks + [k]
  }

  /** Keys are listed in order of first appearance: some file producing key
      i comes before every file producing key j, for i < j. */
  lemma {:induction false} KeyOrderFirstSeen(files: seq<SvgFile>, i: int, j: int) returns (p: nat)
    requires 0 <= i < j < |KeyOrder(files)|
    ensures p < |files| && IconKey(files[p].stem) == KeyOrder(files)[i]
    ensures forall q :: 0 <= q <= p ==> IconKey(files[q].stem) != KeyOrder(files)[j]
    decreases |files|
  {
    var n := |files| - 1;
    var front := files[..n];
    var ks := KeyOrder(front);
    var r := KeyOrder(files);
    if j < |ks| {
      assert r[i] == ks[i] && r[j] == ks[j];
      p := KeyOrderFirstSeen(front, i, j);
      forall q | 0 <= q <= p ensures files[q] == front[q] { }
    } else {
      var k := IconKey(files[n].stem);
      assert r == ks + [k] && r[i] == ks[i] && r[j] == k;
      assert ks[i] in ks;
      var q0 :| 0 <= q0 < |front| && IconKey(front[q0].stem) == ks[i];
      p := q0;
      forall q | 0 <= q <= p ensures IconKey(files[q].stem) != k {
        assert files[q] == front[q];
      }
    }
  }

  /** The contents of the `icons` dict: a later file with the same key
      overwrites the value. */
  function IconTable(files: seq<SvgFile>, encode: string -> string): (r: map<string, string>)
    ensures forall k :: k in r <==> k in KeyOrder(files)
    decreases |files|
  {
    if files == [] then map[]
    else
      var last := files[|files| - 1];
      IconTable(files[..|files| - 1], encode)[IconKey(last.stem) := DataUrl(last.content, encode)]
  }

  /** Each key holds the data URL of the last file that produced it. */
  lemma {:induction false} LastFileWins(files: seq<SvgFile>, encode: string -> string, i: nat)
    requires i < |files|
    requires forall j :: i < j < |files| ==> IconKey(files[j].stem) != IconKey(files[i].stem)
    ensures IconKey(files[i].stem) in IconTable(files, encode)
    ensures IconTable(files, encode)[IconKey(files[i].stem)] == DataUrl(files[i].content, encode)
    decreases |files|
  {
    if i < |files| - 1 {
      var front := files[..|files| - 1];
      assert front[i] == files[i];
      forall j | i < j < |front| ensures IconKey(front[j].stem) != IconKey(front[i].stem) {
        assert front[j] == files[j];
      }
      LastFileWins(front, encode, i);
    }
  }

  const HeaderLines: seq<string> := [
    "\"\"\"Base64-encoded SVG icon data for varsom warnings.",
    "",
    "Icons are from NVE (Norwegian Water Resources and Energy Directorate).",
    "License: CC BY 4.0",
    "",
    "Note: Icons have 8px padding added (48x48 canvas with 32x32 content)",
    "to fit better in circular masks without cutting corners.",
    "\"\"\"",
    "",
    "ICONS = {"]

  /** Line 69: one dict entry of the generated module. */
  function EntryLine(name: string, url: string): string
  {
    "    \"" + name + "\": \"" + url + "\","
  }

  function EntryLines(keys: seq<string>, icons: map<string, string>): (r: seq<string>)
    requires forall k :: k in keys ==> k in icons
    ensures |r| == |keys|
    ensures forall j :: 0 <= j < |keys| ==> r[j] == EntryLine(keys[j], icons[keys[j]])
  {
    if keys == [] then [] else EntryLines(keys[..|keys| - 1], icons) + [EntryLine(keys[|keys| - 1], icons[keys[|keys| - 1]])]
  }

  /** Python's `'\n'.join(lines)`. */
  function JoinLines(lines: seq<string>): string
  {
    if |lines| == 0 then ""
    else if |lines| == 1 then lines[0]
    else lines[0] + "\n" + JoinLines(lines[1..])
  }

  /** Python's `s.split('\n')`. */
  function SplitLines(s: string): (r: seq<string>)
    ensures |r| > 0
    decreases |s|
  {
    if Lacks(s, '\n') then [s]
    else
      var k := NextNewline(s, 0);
      [s[..k]] + SplitLines(s[k + 1..])
  }

  /** The first newline of `s` from `from` on, which exists. */
  function NextNewline(s: string, from: nat): (k: nat)
    requires from <= |s|
    requires exists i :: from <= i < |s| && s[i] == '\n'
    ensures from <= k < |s| && s[k] == '\n' && Lacks(s[from..k], '\n')
    decreases |s| - from
  {
    if s[from] == '\n' then from
    else
      assert s[from + 1..NextNewline(s, from + 1)] == s[from..NextNewline(s, from + 1)][1..];
      NextNewline(s, from + 1)
  }

  /** Joining lines that hold no newline and splitting again gives them back. */
  lemma {:induction false} SplitJoin(lines: seq<string>)
    requires |lines| > 0
    requires forall j :: 0 <= j < |lines| ==> Lacks(lines[j], '\n')
    ensures SplitLines(JoinLines(lines)) == lines
    decreases |lines|
  {
    if |lines| > 1 {
      var s := JoinLines(lines);
      var head := lines[0];
      var tail := JoinLines(lines[1..]);
      assert s == head + "\n" + tail;
      assert s[|head|] == '\n';
      assert !Lacks(s, '\n');
      var k := NextNewline(s, 0);
      assert k == |head|;
      assert s[..k] == head;
      assert s[k + 1..] == tail;
      SplitJoin(lines[1..]);
    }
  }

  /** Lines 57-75: the lines `header`, `entries` and a closing brace, joined
      with newlines and ended by one. */
  function Document(header: seq<string>, entries: seq<string>): string
  {
    JoinLines(header + entries + ["}"]) + "\n"
  }

  /** The text written to icon_data.py. */
  function ModuleText(files: seq<SvgFile>, encode: string -> string): string
  {
    Document(HeaderLines, Entries(files, encode))
  }

  /** Names and payloads that can be written one per line. */
  predicate LineSafe(files: seq<SvgFile>, encode: string -> string)
  {
    (forall i :: 0 <= i < |files| ==> Lacks(IconKey(files[i].stem), '\n')) &&
    (forall i :: 0 <= i < |files| ==> Lacks(encode(AddPaddingToSvg(files[i].content)), '\n'))
  }

  /** One entry line per distinct key, in first-seen order. */
  function Entries(files: seq<SvgFile>, encode: string -> string): seq<string>
  {
    EntryLines(KeyOrder(files), IconTable(files, encode))
  }

  /** A document is its header, a newline, and a tail that reads back as the
      entry lines, the closing brace and the empty piece after the final
      newline. */
  lemma DocumentLayout(header: seq<string>, entries: seq<string>)
    requires |header| > 0
    requires forall j :: 0 <= j < |entries| ==> Lacks(entries[j], '\n')
    ensures Document(header, entries) == JoinLines(header) + "\n" + JoinLines(entries + ["}"]) + "\n"
    ensures SplitLines(JoinLines(entries + ["}"]) + "\n") == entries + ["}", ""]
  {
    TailLines(entries);
    assert header + entries + ["}"] == header + (entries + ["}"]);
    JoinConcat(header, entries + ["}"]);
  }

  /** The entry lines and the closing brace, newline-terminated, read back. */
  lemma TailLines(entries: seq<string>)
    requires forall j :: 0 <= j < |entries| ==> Lacks(entries[j], '\n')
    ensures SplitLines(JoinLines(entries + ["}"]) + "\n") == entries + ["}", ""]
  {
    var tail := entries + ["}"];
    forall j | 0 <= j < |tail| ensures Lacks(tail[j], '\n') {
      if j < |entries| {
        assert tail[j] == entries[j];
      }
    }
    SplitJoinedText(tail);
    assert tail + [""] == entries + ["}", ""];
  }

  lemma {:induction false} JoinConcat(a: seq<string>, b: seq<string>)
    requires |a| > 0 && |b| > 0
    ensures JoinLines(a + b) == JoinLines(a) + "\n" + JoinLines(b)
    decreases |a|
  {
    if |a| > 1 {
      assert (a + b)[1..] == a[1..] + b;
      JoinConcat(a[1..], b);
    } else {
      assert (a + b)[1..] == b;
    }
  }

  /** Text written as newline-terminated lines splits into those lines and
      the empty piece after the last newline. */
  lemma SplitJoinedText(lines: seq<string>)
    requires |lines| > 0
    requires forall j :: 0 <= j < |lines| ==> Lacks(lines[j], '\n')
    ensures SplitLines(JoinLines(lines) + "\n") == lines + [""]
  {
    JoinAppendEmpty(lines);
    SplitJoin(lines + [""]);
  }

  /** No entry line holds a newline when no key and no payload does. */
  lemma EntriesLackNewline(files: seq<SvgFile>, encode: string -> string)
    requires LineSafe(files, encode)
    ensures forall j :: 0 <= j < |Entries(files, encode)| ==> Lacks(Entries(files, encode)[j], '\n')
  {
    var icons := IconTable(files, encode);
    var keys := KeyOrder(files);
    forall j | 0 <= j < |keys| ensures Lacks(EntryLines(keys, icons)[j], '\n') {
      EntryLacksNewline(files, encode, keys[j]);
    }
  }

  lemma EntryLacksNewline(files: seq<SvgFile>, encode: string -> string, key: string)
    requires LineSafe(files, encode)
    requires key in KeyOrder(files)
    ensures key in IconTable(files, encode) && Lacks(EntryLine(key, IconTable(files, encode)[key]), '\n')
  {
    var i :| 0 <= i < |files| && IconKey(files[i].stem) == key;
    var last := LastWithKey(files, i);
    LastFileWins(files, encode, last);
    var payload := encode(AddPaddingToSvg(files[last].content));
    LacksConcat(key, payload, EntryLine(key, DataUrlPrefix + payload));
  }

  /** The last index from `i` on whose file gives the same key as file `i`. */
  lemma {:induction false} LastWithKey(files: seq<SvgFile>, i: nat) returns (last: nat)
    requires i < |files|
    ensures i <= last < |files| && IconKey(files[last].stem) == IconKey(files[i].stem)
    ensures forall j :: last < j < |files| ==> IconKey(files[j].stem) != IconKey(files[i].stem)
    decreases |files| - i
  {
    last := i;
    var j := i + 1;
    while j < |files|
      invariant i <= last < j <= |files|
      invariant IconKey(files[last].stem) == IconKey(files[i].stem)
      invariant forall m :: last < m < j ==> IconKey(files[m].stem) != IconKey(files[i].stem)
    {
      if IconKey(files[j].stem) == IconKey(files[i].stem) {
        last := j;
      }
      j := j + 1;
    }
  }

  /** An entry line has a newline only where its name or its payload has one. */
  lemma LacksConcat(name: string, payload: string, e: string)
    requires Lacks(name, '\n') && Lacks(payload, '\n')
    requires e == EntryLine(name, DataUrlPrefix + payload)
    ensures Lacks(e, '\n')
  {
    forall i | 0 <= i < |e| ensures e[i] != '\n' {
      var a := |"    \""|;
      var b := a + |name|;
      var c := b + |"\": \""|;
      var d := c + |DataUrlPrefix|;
      var f := d + |payload|;
      if i < a {
      } else if i < b {
        assert e[i] == name[i - a];
      } else if i < c {
      } else if i < d {
        assert e[i] == DataUrlPrefix[i - c];
      } else if i < f {
        assert e[i] == payload[i - d];
      }
    }
  }

  lemma JoinAppendEmpty(lines: seq<string>)
    requires |lines| > 0
    ensures JoinLines(lines + [""]) == JoinLines(lines) + "\n"
    decreases |lines|
  {
    if |lines| == 1 {
      assert JoinLines(lines + [""]) == lines[0] + "\n" + JoinLines([""]);
    } else {
      assert (lines + [""])[1..] == lines[1..] + [""];
      JoinAppendEmpty(lines[1..]);
    }
  }

  /** Lines 41-54: fill the `icons` dict file by file; a repeated key keeps
      its place and takes the newer data URL. */
  method CollectIcons(files: seq<SvgFile>, encode: string -> string)
    returns (keys: seq<string>, icons: map<string, string>)
    ensures keys == KeyOrder(files) && icons == IconTable(files, encode)
  {
    keys := [];
    icons := map[];
    for i := 0 to |files|
      invariant keys == KeyOrder(files[..i])
      invariant icons == IconTable(files[..i], encode)
    {
      assert files[..i + 1][..i] == files[..i];
      var name := IconKey(files[i].stem);
      var dataUrl := DataUrl(files[i].content, encode);
      if name !in icons {
        keys := keys + [name];
      }
      icons := icons[name := dataUrl];
    }
    assert files[..|files|] == files;
  }

  /** Lines 57-71: the header, one entry line per key, the closing brace. */
  method OutputLines(keys: seq<string>, icons: map<string, string>) returns (output: seq<string>)
    requires forall k :: k in keys ==> k in icons
    ensures output == HeaderLines + EntryLines(keys, icons) + ["}"]
  {
    output := HeaderLines;
    for j := 0 to |keys|
      invariant output == HeaderLines + EntryLines(keys[..j], icons)
    {
      assert keys[..j + 1][..j] == keys[..j];
      output := output + [EntryLine(keys[j], icons[keys[j]])];
    }
    assert keys[..|keys|] == keys;
    output := output + ["}"];
  }

  /** Lines 36-75: the text written to icon_data.py. */
  method ProcessIcons(files: seq<SvgFile>, encode: string -> string) returns (text: string)
    ensures text == ModuleText(files, encode)
  {
    var keys, icons := CollectIcons(files, encode);
    var output := OutputLines(keys, icons);
    text := JoinLines(output) + "\n";
  }
}
