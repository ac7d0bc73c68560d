/** Local text extraction from a PDF and the clean-up applied to it before
    prompting (app.py, section "PDF Parsing"): assembling the page texts
    into one labelled document, normalising its line breaks and whitespace,
    and trimming it to a character cap with an in-band truncation marker. */
module Ingest {
  import opened Wrappers
  import opened PyText

  // ---------------------------------------------------------------------
  // Page assembly (extract_text_from_pdf)
  // ---------------------------------------------------------------------

  /** What the PDF reader yields for one page: `Some(t)` when
      `extract_text()` returned the text `t`, `None` when it raised or
      returned nothing. */
  type PageResult = Option<string>

  /** The separator placed between two kept pages. */
  const PageSeparator: string := "\n\n"

  /** The stripped text of one page; a failed page counts as empty. */
  function PageText(page: PageResult): string {
    Strip(page.GetOr(""))
  }

  /** The line that announces a page, e.g. "[PAGE 3]\n" (page numbers
      start at 1). */
  function PageLabel(number: nat): string {
    "[PAGE " + NatToString(number) + "]\n"
  }

  /** The stripped text of every page, in page order. */
  function PageTexts(pages: seq<PageResult>): seq<string> {
    seq(|pages|, i requires 0 <= i < |pages| => PageText(pages[i]))
  }

  /** Text `i` is the stripped text of page `i`. */
  lemma PageTextsIndex(pages: seq<PageResult>)
    ensures |PageTexts(pages)| == |pages|
    ensures forall i :: 0 <= i < |pages| ==> PageTexts(pages)[i] == PageText(pages[i])
  {
  }

  /** The labelled text of the page with zero-based index `index`. */
  function PagePart(index: nat, text: string): string {
    PageLabel(index + 1) + text
  }

  /** The parts the extraction loop has collected after visiting pages
      with the stripped texts `texts`: the labelled text of every page
      whose text is non-empty. */
  function Parts(texts: seq<string>): seq<string> {
    if texts == [] then []
    else
      var i := |texts| - 1;
      Parts(texts[..i]) + (if texts[i] != "" then [PagePart(i, texts[i])] else [])
  }

  /** The zero-based indices of the non-empty texts, ascending: a strictly
      increasing sequence holding exactly those indices. */
  function Kept(texts: seq<string>): (r: seq<nat>)
    ensures forall k :: 0 <= k < |r| ==> r[k] < |texts|
    ensures forall k, l :: 0 <= k < l < |r| ==> r[k] < r[l]
    ensures forall i :: 0 <= i < |texts| ==> (i in r <==> texts[i] != "")
  {
    if texts == [] then []
    else
      var i := |texts| - 1;
      var prev := Kept(texts[..i]);
      KeptStep(texts, prev);
      prev + (if texts[i] != "" then [i] else [])
  }

  /** Appending the last index to the indices kept from the earlier texts
      keeps them ascending and exact. */
  lemma KeptStep(texts: seq<string>, prev: seq<nat>)
    requires texts != []
    requires forall k :: 0 <= k < |prev| ==> prev[k] < |texts| - 1
    requires forall k, l :: 0 <= k < l < |prev| ==> prev[k] < prev[l]
    requires forall i :: 0 <= i < |texts| - 1 ==> (i in prev <==> texts[..|texts| - 1][i] != "")
    ensures var r := prev + (if texts[|texts| - 1] != "" then [|texts| - 1] else []);
      && (forall k :: 0 <= k < |r| ==> r[k] < |texts|)
      && (forall k, l :: 0 <= k < l < |r| ==> r[k] < r[l])
      && (forall i :: 0 <= i < |texts| ==> (i in r <==> texts[i] != ""))
  {
    var n := |texts| - 1;
    var r := prev + (if texts[n] != "" then [n] else []);
    forall i | 0 <= i < |texts| ensures i in r <==> texts[i] != "" {
      if i < n {
        assert texts[..n][i] == texts[i];
        assert i in r <==> i in prev;
      } else {
        assert n !in prev;
      }
    }
  }

  /** Part `k` is the labelled text of the `k`-th kept index. */
  lemma {:induction false} PartsInOrder(texts: seq<string>)
    ensures |Parts(texts)| == |Kept(texts)|
    ensures forall k :: 0 <= k < |Parts(texts)| ==>
              Parts(texts)[k] == PagePart(Kept(texts)[k], texts[Kept(texts)[k]])
  {
    if texts != [] {
      var n := |texts| - 1;
      PartsInOrder(texts[..n]);
      var parts, kept := Parts(texts[..n]), Kept(texts[..n]);
      assert Parts(texts) == parts + (if texts[n] != "" then [PagePart(n, texts[n])] else []);
      assert Kept(texts) == kept + (if texts[n] != "" then [n] else []);
      forall k | 0 <= k < |Parts(texts)|
        ensures Parts(texts)[k] == PagePart(Kept(texts)[k], texts[Kept(texts)[k]])
      {
        if k < |parts| {
          assert Parts(texts)[k] == parts[k];
          assert Kept(texts)[k] == kept[k];
          assert texts[..n][kept[k]] == texts[kept[k]];
        }
      }
    }
  }

  /** Every part built from stripped texts is stripped and non-empty: it
      starts with the page label and ends with the text's last character. */
  lemma {:induction false} PartsAreStripped(texts: seq<string>)
    requires forall i :: 0 <= i < |texts| ==> IsStripped(texts[i])
    ensures forall k :: 0 <= k < |Parts(texts)| ==> IsStripped(Parts(texts)[k]) && Parts(texts)[k] != []
  {
    if texts != [] {
      var i := |texts| - 1;
      assert forall j :: 0 <= j < i ==> texts[..i][j] == texts[j];
      PartsAreStripped(texts[..i]);
      var t := texts[i];
      var p := PagePart(i, t);
      assert p[0] == '[';
      if t != "" {
        assert p[|p| - 1] == t[|t| - 1];
      }
    }
  }

  /** The parts extract_text_from_pdf collects from `pages`. */
  function PageParts(pages: seq<PageResult>): seq<string> {
    Parts(PageTexts(pages))
  }

  /** The zero-based indices of the pages that contribute a part: strictly
      increasing, and holding exactly the pages whose stripped text is
      non-empty; a page that failed contributes nothing. */
  function KeptPages(pages: seq<PageResult>): (r: seq<nat>)
    ensures forall k :: 0 <= k < |r| ==> r[k] < |pages|
    ensures forall k, l :: 0 <= k < l < |r| ==> r[k] < r[l]
    ensures forall i :: 0 <= i < |pages| ==> (i in r <==> PageText(pages[i]) != "")
    ensures forall i :: 0 <= i < |pages| && pages[i].None? ==> i !in r
  {
    PageTextsIndex(pages);
    Kept(PageTexts(pages))
  }

  /** Pages that fail or carry no text are left out; every other page
      appears exactly once, labelled with its own page number, in ascending
      page order. */
  lemma PagePartsInOrder(pages: seq<PageResult>)
    ensures |PageParts(pages)| == |KeptPages(pages)|
    ensures forall k :: 0 <= k < |PageParts(pages)| ==>
              PageParts(pages)[k] == PagePart(KeptPages(pages)[k], PageText(pages[KeptPages(pages)[k]]))
  {
    PageTextsIndex(pages);
    PartsInOrder(PageTexts(pages));
  }

  /** The joined document needs no outer strip: it starts with a page label
      and ends with a page's last non-whitespace character. */
  lemma JoinedPagesAreStripped(pages: seq<PageResult>)
    ensures IsStripped(Join(PageParts(pages), PageSeparator))
  {
    PageTextsIndex(pages);
    PartsAreStripped(PageTexts(pages));
  }

  /** extract_text_from_pdf on a document whose reader opened it: visits
      every page in order, keeps the labelled non-empty ones, joins them
      with a blank line and reports the true page count, failed pages
      included. */
  method ExtractText(pages: seq<PageResult>) returns (text: string, nPages: nat)
    ensures nPages == |pages|
    ensures text == Join(PageParts(pages), PageSeparator)
  {
    nPages := |pages|;
    ghost var texts := PageTexts(pages);
    PageTextsIndex(pages);
    var parts: seq<string> := [];
    for i := 0 to nPages
      invariant parts == Parts(texts[..i])
    {
      var t := Strip(pages[i].GetOr(""));
      PartsSnoc(texts, i);
      if t != "" {
        parts := parts + [PageLabel(i + 1) + t];
      }
    }
    assert texts[..nPages] == texts;
    JoinedPagesAreStripped(pages);
    text := Strip(Join(parts, PageSeparator));
  }

  /** Visiting one more page extends the collected parts by that page's
      part, if it has one. */
  lemma PartsSnoc(texts: seq<string>, i: nat)
    requires i < |texts|
    ensures Parts(texts[..i + 1]) == Parts(texts[..i]) + (if texts[i] != "" then [PagePart(i, texts[i])] else [])
  {
    assert texts[..i + 1][..i] == texts[..i];
  }

  // ---------------------------------------------------------------------
  // Normalisation (normalize_text)
  // ---------------------------------------------------------------------

  /** No carriage return anywhere in `s`. */
  predicate NoCR(s: string) {
    forall i :: 0 <= i < |s| ==> s[i] != '\r'
  }

  /** `"\n\n\n" in s`. */
  predicate HasTriple(s: string) {
    exists i :: 0 <= i < |s| - 2 && s[i] == '\n' && s[i + 1] == '\n' && s[i + 2] == '\n'
  }

  /** `s` starts with three newlines. */
  predicate StartsWithTriple(s: string) {
    |s| >= 3 && s[0] == '\n' && s[1] == '\n' && s[2] == '\n'
  }

  /** When `s` does not start with three newlines, it holds three
      newlines in a row exactly when its tail does. */
  lemma HasTripleUncons(s: string)
    requires s != [] && !StartsWithTriple(s)
    ensures HasTriple(s) <==> HasTriple(s[1..])
  {
    if HasTriple(s) {
      var i :| 0 <= i < |s| - 2 && s[i] == '\n' && s[i + 1] == '\n' && s[i + 2] == '\n';
      assert s[1..][i - 1] == s[i];
    }
    if HasTriple(s[1..]) {
      var i :| 0 <= i < |s[1..]| - 2 && s[1..][i] == '\n' && s[1..][i + 1] == '\n' && s[1..][i + 2] == '\n';
      assert s[i + 1] == s[1..][i];
    }
  }

  /** A slice of a string without three newlines in a row has none either. */
  lemma NoTripleSlice(s: string, a: nat, b: nat, r: string)
    requires a <= b <= |s| && !HasTriple(s) && r == s[a..b]
    ensures !HasTriple(r)
  {
    forall i | 0 <= i < b - a - 2
      ensures !(r[i] == '\n' && r[i + 1] == '\n' && r[i + 2] == '\n')
    {
      assert r[i] == s[a + i] && r[i + 1] == s[a + i + 1] && r[i + 2] == s[a + i + 2];
    }
  }

  /** Stripping keeps a string free of carriage returns. */
  lemma StripKeepsNoCR(s: string)
    requires NoCR(s)
    ensures NoCR(Strip(s))
  {
    StripIsSlice(s);
    NoCRSlice(s, StripOffset(s), StripOffset(s) + |Strip(s)|, Strip(s));
  }

  /** A slice of a string without carriage returns has none either. */
  lemma NoCRSlice(s: string, a: nat, b: nat, r: string)
    requires a <= b <= |s| && NoCR(s) && r == s[a..b]
    ensures NoCR(r)
  {
    forall i | 0 <= i < |r| ensures r[i] != '\r' {
      assert r[i] == s[a + i];
    }
  }

  /** Stripping keeps a string free of three newlines in a row. */
  lemma StripKeepsNoTriple(s: string)
    requires !HasTriple(s)
    ensures !HasTriple(Strip(s))
  {
    StripIsSlice(s);
    NoTripleSlice(s, StripOffset(s), StripOffset(s) + |Strip(s)|, Strip(s));
  }

  /** No three newlines start at position `i`. */
  lemma NoTripleAt(s: string, i: nat)
    requires i + 2 < |s| && !HasTriple(s)
    ensures !(s[i] == '\n' && s[i + 1] == '\n' && s[i + 2] == '\n')
  {
  }

  /** `s.replace("\r", "\n")`: no carriage return is left, the length is
      kept, and a string without carriage returns is returned unchanged. */
  function ReplaceCR(s: string): (r: string)
    ensures |r| == |s| && NoCR(r)
    ensures NoCR(s) ==> r == s
  {
    seq(|s|, i requires 0 <= i < |s| => if s[i] == '\r' then '\n' else s[i])
  }

  /** `s.replace("\n\n\n", "\n\n")`, which rewrites the leftmost
      occurrence and then continues after it: the result is shorter exactly
      when `s` held an occurrence, and carriage returns are never
      introduced. */
  function ReplaceTriple(s: string): (r: string)
    ensures |r| <= |s|
    ensures |r| < |s| <==> HasTriple(s)
    ensures NoCR(s) ==> NoCR(r)
    decreases |s|
  {
    if StartsWithTriple(s) then "\n\n" + ReplaceTriple(s[3..])
    else if s == [] then []
    else
      HasTripleUncons(s);
      [s[0]] + ReplaceTriple(s[1..])
  }

  /** The `while "\n\n\n" in t` loop: replace until no run of three
      newlines is left. */
  function Collapse(s: string): (r: string)
    ensures NoCR(s) ==> NoCR(r)
    decreases |s|
  {
    if HasTriple(s) then Collapse(ReplaceTriple(s)) else s
  }

  /** normalize_text as a value. */
  function Normalize(text: string): string {
    Strip(Collapse(ReplaceCR(text)))
  }

  /** The shape normalize_text promises: no carriage return, no three
      newlines in a row, no leading or trailing whitespace. */
  predicate IsNormalized(s: string) {
    NoCR(s) && !HasTriple(s) && IsStripped(s)
  }

  /** The loop leaves no run of three newlines and changes nothing once
      there is none. */
  lemma {:induction false} CollapseLeavesNoTriple(s: string)
    ensures !HasTriple(Collapse(s))
    ensures !HasTriple(s) ==> Collapse(s) == s
    decreases |s|
  {
    if HasTriple(s) {
      CollapseLeavesNoTriple(ReplaceTriple(s));
    }
  }

  /** Every result of normalize_text has the promised shape. */
  lemma NormalizeProperties(text: string)
    ensures IsNormalized(Normalize(text))
  {
    var c := Collapse(ReplaceCR(text));
    CollapseLeavesNoTriple(ReplaceCR(text));
    StripKeepsNoCR(c);
    StripKeepsNoTriple(c);
  }

  /** The strings normalize_text leaves unchanged are exactly the
      normalised ones. */
  lemma NormalizeFixpoint(s: string)
    ensures Normalize(s) == s <==> IsNormalized(s)
  {
    NormalizeProperties(s);
    if IsNormalized(s) {
      CollapseLeavesNoTriple(s);
    }
  }

  /** normalize_text is idempotent. */
  lemma NormalizeIdempotent(text: string)
    ensures Normalize(Normalize(text)) == Normalize(text)
  {
    NormalizeProperties(text);
    NormalizeFixpoint(Normalize(text));
  }

  /** normalize_text: the `while` loop ends because every pass that finds
      three newlines shortens the text, and the result is the normal form. */
  method NormalizeText(text: string) returns (r: string)
    ensures r == Normalize(text)
    ensures IsNormalized(r)
  {
    var t := ReplaceCR(text);
    ghost var t0 := t;
    while HasTriple(t)
      invariant Collapse(t) == Collapse(t0)
      decreases |t|
    {
      t := ReplaceTriple(t);
    }
    CollapseLeavesNoTriple(t);
    r := Strip(t);
    NormalizeProperties(text);
  }

  // ---------------------------------------------------------------------
  // A reference definition of the newline collapse
  // ---------------------------------------------------------------------

  /** `n` newlines. */
  function Newlines(n: nat): string {
    seq(n, _ => '\n')
  }

  /** One left-to-right pass that drops every newline following two
      newlines already kept (`run` counts the newlines that end the output
      so far), i.e. every run of three or more newlines becomes exactly two
      and nothing else changes. */
  function SqueezeNewlines(s: string, run: nat): string
    decreases |s|
  {
    if s == [] then []
    else if s[0] == '\n' then
      if run >= 2 then SqueezeNewlines(s[1..], 2) else "\n" + SqueezeNewlines(s[1..], run + 1)
    else [s[0]] + SqueezeNewlines(s[1..], 0)
  }

  /** Two newlines in front leave the pass with a run of two. */
  lemma SqueezeTwoNewlines(x: string, run: nat)
    ensures SqueezeNewlines("\n\n" + x, run)
         == Newlines(if run >= 2 then 0 else 2 - run) + SqueezeNewlines(x, 2)
  {
    var s := "\n\n" + x;
    assert s[1..] == "\n" + x;
    assert ("\n" + x)[1..] == x;
    assert Newlines(0) == "" && Newlines(1) == "\n" && Newlines(2) == "\n\n";
  }

  /** One `replace` pass does not change what the reference pass
      produces. */
  lemma {:induction false} SqueezeReplaceTriple(s: string, run: nat)
    ensures SqueezeNewlines(ReplaceTriple(s), run) == SqueezeNewlines(s, run)
    decreases |s|
  {
    if StartsWithTriple(s) {
      var y := s[3..];
      assert s == "\n\n" + ("\n" + y);
      SqueezeTwoNewlines(ReplaceTriple(y), run);
      SqueezeTwoNewlines("\n" + y, run);
      assert ("\n" + y)[1..] == y;
      SqueezeReplaceTriple(y, 2);
    } else if s != [] {
      var n := if s[0] == '\n' then (if run >= 2 then 2 else run + 1) else 0;
      SqueezeReplaceTriple(s[1..], n);
      var r := ReplaceTriple(s);
      assert r == [s[0]] + ReplaceTriple(s[1..]);
      assert r[1..] == ReplaceTriple(s[1..]);
    }
  }

  /** Without three newlines in a row (counting the run already emitted)
      the reference pass changes nothing. */
  lemma {:induction false} SqueezeNoTriple(s: string, run: nat)
    requires run <= 2 && !HasTriple(Newlines(run) + s)
    ensures SqueezeNewlines(s, run) == s
    decreases |s|
  {
    var w := Newlines(run) + s;
    if s != [] {
      if s[0] == '\n' {
        if |w| >= 3 {
          NoTripleAt(w, 0);
        }
        assert Newlines(run + 1) + s[1..] == w;
        SqueezeNoTriple(s[1..], run + 1);
      } else {
        assert w[run + 1..] == Newlines(0) + s[1..];
        NoTripleSlice(w, run + 1, |w|, Newlines(0) + s[1..]);
        SqueezeNoTriple(s[1..], 0);
      }
    }
  }

  /** The replace-until-stable loop computes exactly the reference pass:
      every run of three or more newlines becomes two. */
  lemma {:induction false} CollapseMatchesSqueeze(s: string)
    ensures Collapse(s) == SqueezeNewlines(s, 0)
    decreases |s|
  {
    if HasTriple(s) {
      CollapseMatchesSqueeze(ReplaceTriple(s));
      SqueezeReplaceTriple(s, 0);
    } else {
      assert Newlines(0) + s == s;
      SqueezeNoTriple(s, 0);
    }
  }

  // ---------------------------------------------------------------------
  // Trimming (trim_text)
  // ---------------------------------------------------------------------

  /** The marker appended to a truncated document. */
  const TruncationMarker: string := "\n\n[...입력 길이 제한으로 일부 생략됨...]"

  /** trim_text: a text that fits the cap comes back unchanged; a longer
      one is cut to its first `maxChars` characters and followed by exactly
      one marker, so the result never exceeds the cap plus the marker. */
  function TrimText(text: string, maxChars: nat): (r: string)
    ensures |text| <= maxChars ==> r == text
    ensures |r| <= maxChars + |TruncationMarker|
    ensures |text| > maxChars ==> |r| == maxChars + |TruncationMarker| && r[..maxChars] == text[..maxChars] && r[maxChars..] == TruncationMarker
  {
    if |text| <= maxChars then text else text[..maxChars] + TruncationMarker
  }

  /** Trimming twice is trimming once: re-trimming a truncated text cuts
      off exactly the marker it carries and appends it again, so trimming
      a trimmed text never adds a second marker. */
  lemma TrimIdempotent(text: string, maxChars: nat)
    ensures TrimText(TrimText(text, maxChars), maxChars) == TrimText(text, maxChars)
  {
    if |text| > maxChars {
      var r := TrimText(text, maxChars);
      assert r[..maxChars] == text[..maxChars];
    }
  }

  /** A text that ends in a non-whitespace character still does after
      trimming, because the marker itself ends in one. */
  lemma TrimEndsInNonSpace(text: string, maxChars: nat)
    requires text != [] && !IsSpace(text[|text| - 1])
    ensures TrimText(text, maxChars) != []
    ensures !IsSpace(TrimText(text, maxChars)[|TrimText(text, maxChars)| - 1])
  {
    var r := TrimText(text, maxChars);
    if |text| > maxChars {
      assert r[|r| - 1] == TruncationMarker[|TruncationMarker| - 1] == ']';
    }
  }
}
