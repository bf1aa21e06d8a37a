/**
 * The annotation splitter (`mod args` of the attribute crate): the text of a
 * `SPANDOC: ` doc comment is divided into a label and an optional trailing
 * field block `{...}` whose braces balance. Text is a sequence of characters;
 * the source indexes characters but slices the UTF-8 string by the same
 * numbers, which agrees only on ASCII text.
 */
module Args {
  import opened Wrappers
  import opened Str
  import opened Seqs

  /** The marker a doc comment must start with, after trimming, to become a span. */
  const Marker: string := "SPANDOC: "

  /** Rust's `Range<usize>`: the half-open interval `start..end`. */
  datatype Range = Range(start: nat, end: nat)

  /** How many more closing than opening braces `s` holds. */
  function Depth(s: string): int {
    Count(s, '}') - Count(s, '{')
  }

  /** The change the scan makes to its depth counter on reading `c`. */
  function Delta(c: char): int {
    if c == '}' then 1 else if c == '{' then -1 else 0
  }

  lemma DepthAppend(a: string, b: string)
    ensures Depth(a + b) == Depth(a) + Depth(b)
  {
    CountAppend(a, b, '}');
    CountAppend(a, b, '{');
  }

  /** One step of the backward scan: the suffix from `i` adds `text[i]` to the suffix from `i + 1`. */
  lemma DepthStep(text: string, i: nat)
    requires i < |text|
    ensures Depth(text[i..]) == Delta(text[i]) + Depth(text[i + 1..])
  {
    assert text[i..] == [text[i]] + text[i + 1..];
    DepthAppend([text[i]], text[i + 1..]);
    assert [text[i]][..0] == [];
  }

  /**
   * The backward scan of `get_ranges` as a function: it reads `text[i - 1]`,
   * `text[i - 2]`, ... updating `depth`, and stops at the first index where
   * `depth` comes back to zero.
   */
  function ScanBack(text: string, i: nat, depth: int): (r: Option<nat>)
    requires i <= |text|
    ensures r.Some? ==> r.value < i
  {
    if i == 0 then None
    else
      var d := depth + Delta(text[i - 1]);
      if d == 0 then Some(i - 1) else ScanBack(text, i - 1, d)
  }

  /**
   * `get_ranges`: `None` unless the text ends with `}`; otherwise the scan
   * from the end fixes index `ind` of the opening brace, and the result is the
   * label range `0..ind` and the field range `ind + 1..len - 1`.
   */
  function Ranges(text: string): (r: Option<(Range, Range)>)
    ensures r.Some? ==>
      1 <= r.value.1.start <= r.value.1.end == |text| - 1 &&
      r.value.0 == Range(0, r.value.1.start - 1)
  {
    if !EndsWith(text, '}') then None
    else
      match ScanBack(text, |text|, 0)
      case None => None
      case Some(ind) =>
        assert ScanBack(text, |text|, 0) == ScanBack(text, |text| - 1, 1);
        Some((Range(0, ind), Range(ind + 1, |text| - 1)))
  }

  /**
   * `ind` opens the field block: the suffix from `ind` has as many `{` as `}`,
   * and every shorter nonempty suffix has more `}` than `{`.
   */
  ghost predicate OpensFieldBlock(text: string, ind: nat) {
    ind < |text| && Depth(text[ind..]) == 0 &&
    forall j :: ind < j < |text| ==> Depth(text[j..]) > 0
  }

  lemma {:induction false} ScanBackFinds(text: string, i: nat)
    requires EndsWith(text, '}') && i <= |text|
    requires forall j :: i <= j < |text| ==> Depth(text[j..]) > 0
    ensures match ScanBack(text, i, Depth(text[i..]))
      case None => forall j :: 0 <= j < i ==> Depth(text[j..]) > 0
      case Some(k) => OpensFieldBlock(text, k)
    decreases i
  {
    if i > 0 {
      ScanStep(text, i);
      if Depth(text[i - 1..]) != 0 {
        ScanBackFinds(text, i - 1);
      }
    }
  }

  /** One step of the scan over a text ending in `}`, while every suffix read so far has depth above zero. */
  lemma ScanStep(text: string, i: nat)
    requires EndsWith(text, '}') && 0 < i <= |text|
    requires forall j :: i <= j < |text| ==> Depth(text[j..]) > 0
    ensures Depth(text[i - 1..]) >= 0
    ensures ScanBack(text, i, Depth(text[i..])) ==
      if Depth(text[i - 1..]) == 0 then Some(i - 1) else ScanBack(text, i - 1, Depth(text[i - 1..]))
  {
    DepthStep(text, i - 1);
    assert i == |text| ==> text[i - 1] == '}';
    if i < |text| {
      assert Depth(text[i..]) > 0;
    }
  }

  /**
   * What `get_ranges` computes, stated without the scan: it fails exactly when
   * the text does not end with `}` or no suffix balances; otherwise it splits
   * at the unique opening brace whose suffix is the shortest balanced one.
   */
  lemma RangesCharacterized(text: string)
    ensures Ranges(text).None? <==>
      !EndsWith(text, '}') || forall j :: 0 <= j < |text| ==> Depth(text[j..]) != 0
    ensures Ranges(text).Some? ==>
      var ind := Ranges(text).value.0.end;
      OpensFieldBlock(text, ind) && text[ind] == '{' && ind + 1 <= |text| - 1 &&
      Ranges(text).value == (Range(0, ind), Range(ind + 1, |text| - 1)) &&
      forall k :: OpensFieldBlock(text, k) ==> k == ind
  {
    if EndsWith(text, '}') {
      assert text[|text|..] == [];
      ScanBackFinds(text, |text|);
      if Ranges(text).Some? {
        var ind := Ranges(text).value.0.end;
        DepthStep(text, ind);
        assert text[|text| - 1..] == ['}'];
        assert Depth(text[ind + 1..]) > 0;
      }
    }
  }

  /** `get_ranges` as the source writes it: a backward loop over the characters with a depth counter. */
  method GetRanges(text: string) returns (r: Option<(Range, Range)>)
    ensures r == Ranges(text)
  {
    var depth := 0;
    if !EndsWith(text, '}') {
      return None;
    }
    var chars := text;
    var len := |chars|;
    var ind := len;
    while ind > 0
      invariant 0 <= ind <= len
      invariant ScanBack(chars, ind, depth) == ScanBack(chars, len, 0)
    {
      ind := ind - 1;
      match chars[ind] {
        case '}' => depth := depth + 1;
        case '{' => depth := depth - 1;
        case _ =>
      }
      if depth == 0 {
        var end := len - 1;
        return Some((Range(0, ind), Range(ind + 1, end)));
      }
    }
    return None;
  }

  /**
   * `split_str`: with a field block, the trimmed text before the outer `{` and
   * the untrimmed text strictly inside the outer braces; without one, the
   * whole text and no fields.
   */
  function SplitStr(text: string): (string, Option<string>) {
    match Ranges(text)
    case Some((labelRange, fieldRange)) =>
      (Trim(text[labelRange.start..labelRange.end]), Some(text[fieldRange.start..fieldRange.end]))
    case None => (text, None)
  }

  /**
   * `split`: `None` unless the trimmed text starts with the marker; then every
   * leading copy of the marker is removed and the rest is split as by `split_str`.
   */
  function Split(text: string): Option<(string, Option<string>)> {
    var text := Trim(text);
    if !StartsWith(text, Marker) then None
    else Some(SplitStr(TrimStartMatches(text, Marker)))
  }

  /**
   * A field block whose braces close from the right: it balances, and reading
   * it backwards the count of `}` never falls below the count of `{`.
   */
  ghost predicate BalancedFields(f: string) {
    Depth(f) == 0 && forall j :: 0 <= j <= |f| ==> Depth(f[j..]) >= 0
  }

  /**
   * The two results of `split_str` reassemble the text: with fields `f`, the
   * text is the label's untrimmed source, then `{`, `f`, `}`, and `f` is
   * balanced; without fields, the label is the whole text.
   */
  lemma {:induction false} SplitStrReassembles(text: string)
    ensures SplitStr(text).1.None? ==> SplitStr(text).0 == text
    ensures SplitStr(text).1.Some? ==>
      var f := SplitStr(text).1.value;
      |f| + 2 <= |text| &&
      var raw := text[..|text| - |f| - 2];
      text == raw + "{" + f + "}" && SplitStr(text).0 == Trim(raw) && BalancedFields(f)
  {
    RangesCharacterized(text);
    if Ranges(text).Some? {
      var ind := Ranges(text).value.0.end;
      SplitStrAt(text, ind);
      BracesAround(text, ind);
      InnerFieldsBalanced(text, ind);
    }
  }

  lemma SplitStrAt(text: string, ind: nat)
    requires ind + 1 <= |text| - 1
    requires Ranges(text) == Some((Range(0, ind), Range(ind + 1, |text| - 1)))
    ensures SplitStr(text) == (Trim(text[..ind]), Some(text[ind + 1..|text| - 1]))
  {
  }

  lemma BracesAround(text: string, ind: nat)
    requires ind + 1 <= |text| - 1 && text[ind] == '{' && text[|text| - 1] == '}'
    ensures text == text[..ind] + "{" + text[ind + 1..|text| - 1] + "}"
  {
  }

  /** The text strictly inside the braces of a field block is balanced. */
  lemma InnerFieldsBalanced(text: string, ind: nat)
    requires OpensFieldBlock(text, ind) && ind + 1 <= |text| - 1 && text[ind] == '{'
    requires EndsWith(text, '}')
    ensures BalancedFields(text[ind + 1..|text| - 1])
  {
    var f := text[ind + 1..|text| - 1];
    forall j | 0 <= j <= |f|
      ensures Depth(f[j..]) >= 0
    {
      var t := text[ind + 1 + j..];
      assert Depth(t) > 0;
      DepthBeforeClose(t);
      assert t[..|t| - 1] == f[j..];
    }
    InnerTotal(text, ind);
  }

  /** Text ending in `}` with more `}` than `{` keeps at least as many without that last `}`. */
  lemma DepthBeforeClose(t: string)
    requires EndsWith(t, '}') && Depth(t) > 0
    ensures Depth(t[..|t| - 1]) >= 0
  {
    assert t == t[..|t| - 1] + "}";
    DepthAppend(t[..|t| - 1], "}");
  }

  lemma InnerTotal(text: string, ind: nat)
    requires OpensFieldBlock(text, ind) && ind + 1 <= |text| - 1 && text[ind] == '{'
    requires EndsWith(text, '}')
    ensures Depth(text[ind + 1..|text| - 1]) == 0
  {
    var f := text[ind + 1..|text| - 1];
    assert text[ind..] == "{" + f + "}";
    DepthAppend("{" + f, "}");
    DepthAppend("{", f);
  }

  /**
   * The converse: a label source followed by a balanced field block in braces
   * splits back into the trimmed label and exactly that field block.
   */
  lemma {:induction false} SplitStrOfComposed(raw: string, f: string)
    requires BalancedFields(f)
    ensures SplitStr(raw + "{" + f + "}") == (Trim(raw), Some(f))
  {
    var text := raw + "{" + f + "}";
    var ind := |raw|;
    ComposedOpens(raw, f);
    RangesCharacterized(text);
    SplitStrAt(text, ind);
    assert text[..ind] == raw;
    assert text[ind + 1..|text| - 1] == f;
  }

  /** In a label source followed by a balanced field block, the block's `{` is where the scan stops. */
  lemma ComposedOpens(raw: string, f: string)
    requires BalancedFields(f)
    ensures var text := raw + "{" + f + "}";
      OpensFieldBlock(text, |raw|) && EndsWith(text, '}') && text[|raw|] == '{'
  {
    var text := raw + "{" + f + "}";
    var ind := |raw|;
    forall j | ind < j < |text|
      ensures Depth(text[j..]) > 0
    {
      ComposedSuffix(raw, f, j);
    }
    assert text[ind..] == "{" + f + "}";
    DepthAppend("{" + f, "}");
    DepthAppend("{", f);
  }

  lemma ComposedSuffix(raw: string, f: string, j: nat)
    requires BalancedFields(f) && |raw| < j < |raw| + |f| + 2
    ensures Depth((raw + "{" + f + "}")[j..]) > 0
  {
    var text := raw + "{" + f + "}";
    var u := f[j - |raw| - 1..];
    assert text[j..] == u + "}";
    assert Depth(u) >= 0;
    DepthAppend(u, "}");
  }

  /** `split` fails exactly when the trimmed text does not start with the marker. */
  lemma SplitNoneIff(text: string)
    ensures Split(text).None? <==> !StartsWith(Trim(text), Marker)
  {
  }

  /**
   * What `split` returns for an annotated comment: the trimmed comment is one or
   * more copies of the marker followed by a rest that does not start with the
   * marker, and the result is that rest split by `split_str`.
   */
  lemma SplitAnnotated(text: string)
    requires StartsWith(Trim(text), Marker)
    ensures var t := Trim(text);
      var rest := TrimStartMatches(t, Marker);
      var markers := t[..|t| - |rest|];
      Split(text) == Some(SplitStr(rest)) && t == markers + rest &&
      |markers| >= |Marker| && IsRepetition(markers, Marker) && !StartsWith(rest, Marker)
  {
    var t := Trim(text);
    var rest := TrimStartMatches(t, Marker);
    var markers := t[..|t| - |rest|];
    assert t == markers + rest;
    assert markers != [] by {
      assert markers == [] ==> rest == t;
    }
    assert StartsWith(markers, Marker);
  }

  /** A text with no braces has depth zero on every suffix, so it is a balanced field block. */
  lemma {:induction false} NoBracesBalanced(f: string)
    requires forall i :: 0 <= i < |f| ==> f[i] != '{' && f[i] != '}'
    ensures forall j :: 0 <= j <= |f| ==> Depth(f[j..]) == 0
    ensures BalancedFields(f)
    decreases |f|
  {
    if f != [] {
      NoBracesBalanced(f[1..]);
      forall j | 1 <= j <= |f|
        ensures Depth(f[j..]) == 0
      {
        assert f[j..] == f[1..][j - 1..];
      }
      DepthStep(f, 0);
      assert f[0..] == f;
    }
  }

  /** The unit test `no_args`: text without a trailing `}` comes back unchanged, with no fields. */
  lemma SplitStrNoArgs()
    ensures SplitStr("This doesn't have args") == ("This doesn't have args", None)
  {
  }

  /**
   * A label that neither starts nor ends with whitespace, a space, and a
   * balanced field block in braces split into that label and those fields.
   */
  lemma LabelWithFields(head: string, f: string)
    requires head == [] || (!IsWhitespace(head[0]) && !IsWhitespace(head[|head| - 1]))
    requires BalancedFields(f)
    ensures SplitStr(head + " {" + f + "}") == (head, Some(f))
  {
    assert head + " {" + f + "}" == (head + " ") + "{" + f + "}";
    SplitStrOfComposed(head + " ", f);
    LabelBeforeSpace(head);
  }

  lemma LabelBeforeSpace(head: string)
    requires head == [] || (!IsWhitespace(head[0]) && !IsWhitespace(head[|head| - 1]))
    ensures Trim(head + " ") == head
  {
    TrimOf("", head, " ");
    assert "" + head + " " == head + " ";
  }

  /**
   * An annotated comment: whitespace, one marker and a rest that does not
   * start with the marker, and neither starts nor ends with whitespace, is
   * split as the rest.
   */
  lemma SplitOfMarked(lead: string, rest: string)
    requires AllWhitespace(lead)
    requires rest != [] && !IsWhitespace(rest[0]) && !IsWhitespace(rest[|rest| - 1])
    requires !StartsWith(rest, Marker)
    ensures Split(lead + Marker + rest) == Some(SplitStr(rest))
  {
    TrimOf(lead, Marker + rest, "");
    assert lead + (Marker + rest) + "" == lead + Marker + rest;
    assert (Marker + rest)[..|Marker|] == Marker;
    StripsOneMarker(Marker, rest);
  }

  /** A label and a field block without braces inside it. */
  lemma LabelWithPlainFields(head: string, f: string)
    requires head == [] || (!IsWhitespace(head[0]) && !IsWhitespace(head[|head| - 1]))
    requires forall i :: 0 <= i < |f| ==> f[i] != '{' && f[i] != '}'
    ensures SplitStr(head + " {" + f + "}") == (head, Some(f))
  {
    NoBracesBalanced(f);
    LabelWithFields(head, f);
  }

  /** The unit test `with_args`: the label before the braces, trimmed, and the text inside them. */
  lemma SplitStrWithArgs(text: string)
    requires text == "This doesn't have args {but, this, does}"
    ensures SplitStr(text) == ("This doesn't have args", Some("but, this, does"))
  {
    var head, f := "This doesn't have args", "but, this, does";
    assert head + " {" + f + "}" == text;
    LabelWithPlainFields(head, f);
  }

  lemma {:induction false} NestedFieldsBalanced(f: string)
    requires f == "a: {1,2}"
    ensures BalancedFields(f)
  {
    forall j | 0 <= j <= |f|
      ensures Depth(f[j..]) >= 0
    {
      if j <= 3 {
        NestedHead(f, j);
      } else if j < |f| {
        NestedInner(f, j);
      }
    }
    NestedHead(f, 0);
    assert f[0..] == f;
  }

  lemma NestedBlockDepth(f: string)
    requires f == "a: {1,2}"
    ensures Depth(f[3..]) == 0
  {
    var inner := "1,2";
    NoBracesBalanced(inner);
    DepthAppend("{", inner);
    DepthAppend("{" + inner, "}");
    assert f[3..] == "{" + inner + "}";
  }

  lemma NestedHead(f: string, j: nat)
    requires f == "a: {1,2}" && j <= 3
    ensures Depth(f[j..]) == 0
  {
    NestedBlockDepth(f);
    assert f[j..] == f[j..3] + f[3..];
    NoBracesBalanced(f[j..3]);
    DepthAppend(f[j..3], f[3..]);
  }

  lemma NestedInner(f: string, j: nat)
    requires f == "a: {1,2}" && 3 < j < 8
    ensures Depth(f[j..]) == 1
  {
    var inner := "1,2";
    NoBracesBalanced(inner);
    assert f[j..] == inner[j - 4..] + "}";
    DepthAppend(inner[j - 4..], "}");
  }

  lemma NestedRest(rest: string)
    requires rest == "Doing X {a: {1,2}}"
    ensures SplitStr(rest) == ("Doing X", Some("a: {1,2}"))
  {
    var head, f := "Doing X", "a: {1,2}";
    assert head + " {" + f + "}" == rest;
    NestedFieldsBalanced(f);
    LabelWithFields(head, f);
  }

  /** Nested braces stay inside the field block, and the doc comment's leading space is trimmed. */
  lemma SplitNestedFields(text: string)
    requires text == " SPANDOC: Doing X {a: {1,2}}"
    ensures Split(text) == Some(("Doing X", Some("a: {1,2}")))
  {
    var rest := "Doing X {a: {1,2}}";
    assert " " + Marker + rest == text;
    NestedRest(rest);
    NestedMarked(rest);
  }

  lemma NestedMarked(rest: string)
    requires rest == "Doing X {a: {1,2}}"
    ensures Split(" " + Marker + rest) == Some(SplitStr(rest))
  {
    SplitOfMarked(" ", rest);
  }
}
