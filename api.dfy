/** The deterministic parts of the analytics API: the rewriting of the
    documentation page, the lookup of a video's CSV file and the listing of
    the video folders. The Markdown conversion and the regular-expression
    stages that are not rewritten here are given as functions; a folder is
    given by the names it lists, in enumeration order. */
module Api {
  import opened Text

  // ---------------------------------------------------------------------
  // Response-code classes

  /** The class of a three-character code, decided by its first character. */
  function CodeClass(code: string): (r: string)
    requires |code| == 3
    ensures r == "success" <==> code[0] == '2'
    ensures r == "error" <==> code[0] == '4' || code[0] == '5'
    ensures r == "neutral" <==> code[0] != '2' && code[0] != '4' && code[0] != '5'
  {
    if code[0] == '2' then "success"
    else if code[0] == '4' || code[0] == '5' then "error"
    else "neutral"
  }

  /** On three decimal digits the class follows the hundreds: 2xx success,
      4xx and 5xx error, anything else neutral. */
  lemma CodeClassRanges(code: string)
    requires |code| == 3 && AllDigits(code)
    ensures CodeClass(code) == "success" <==> 200 <= DigitsValue(code) < 300
    ensures CodeClass(code) == "error" <==> 400 <= DigitsValue(code) < 600
    ensures CodeClass(code) == "neutral" <==> DigitsValue(code) < 200 || 300 <= DigitsValue(code) < 400 || 600 <= DigitsValue(code)
  {
    assert code[..2][..1] == code[..1];
    assert DigitsValue(code[..1]) == DigitValue(code[0]) by { assert code[..1][..0] == []; }
    assert DigitsValue(code) == DigitValue(code[0]) * 100 + DigitValue(code[1]) * 10 + DigitValue(code[2]);
  }

  /** The status texts the code pattern accepts after the space. */
  const STATUSES: seq<string> := ["OK", "Not Found", "Internal Server Error"]

  /** The length of the status text starting at index `j`, or 0 if none
      starts there; the alternatives are tried in order. */
  function StatusAt(s: string, j: nat): (n: nat)
    requires j <= |s|
    ensures n == 0 || (j + n <= |s| && s[j..j + n] in STATUSES)
  {
    if StartsWith(s[j..], STATUSES[0]) then assert s[j..j + 2] == s[j..][..2]; 2
    else if StartsWith(s[j..], STATUSES[1]) then assert s[j..j + 9] == s[j..][..9]; 9
    else if StartsWith(s[j..], STATUSES[2]) then assert s[j..j + 21] == s[j..][..21]; 21
    else 0
  }

  /** The length of a match of the code pattern starting at index `i`:
      three digits, a space and a status text; 0 when none starts there. */
  function CodeMatch(s: string, i: nat): (n: nat)
    requires i <= |s|
    ensures n == 0 || (i + 5 < i + n <= |s| && AllDigits(s[i..i + 3]) && s[i + 3] == ' ' && s[i + 4..i + n] in STATUSES)
  {
    if i + 4 <= |s| && IsDigit(s[i]) && IsDigit(s[i + 1]) && IsDigit(s[i + 2]) && s[i + 3] == ' ' && StatusAt(s, i + 4) > 0
    then 4 + StatusAt(s, i + 4)
    else 0
  }

  /** A status text is found wherever one of the three starts. */
  lemma StatusAtComplete(s: string, j: nat)
    requires j <= |s|
    ensures StatusAt(s, j) > 0 <==> exists k :: 0 <= k < |STATUSES| && StartsWith(s[j..], STATUSES[k])
  {
  }

  /** The code pattern `(\d{3}) (OK|Not Found|Internal Server Error)` starts
      at index `i`. */
  predicate PatternAt(s: string, i: nat) {
    i + 4 <= |s| && AllDigits(s[i..i + 3]) && s[i + 3] == ' '
    && exists k :: 0 <= k < |STATUSES| && StartsWith(s[i + 4..], STATUSES[k])
  }

  /** A match is found exactly where the pattern starts. */
  lemma CodeMatchComplete(s: string, i: nat)
    requires i <= |s|
    ensures CodeMatch(s, i) > 0 <==> PatternAt(s, i)
  {
    if i + 4 <= |s| {
      var d := s[i..i + 3];
      assert d[0] == s[i] && d[1] == s[i + 1] && d[2] == s[i + 2];
      StatusAtComplete(s, i + 4);
    }
  }

  const SPAN_OPEN := "<span class=\"response-code response-code-"
  const SPAN_MID := "\">"
  const SPAN_CLOSE := "</span> "

  function CodeSpan(code: string, status: string): string
    requires |code| == 3
  {
    SPAN_OPEN + CodeClass(code) + SPAN_MID + code + SPAN_CLOSE + status
  }

  /** The second substitution on `s` from index `i` on: every match,
      scanning from the left without overlap, is wrapped in a span carrying
      its class. */
  function MarkCodesFrom(s: string, i: nat): string
    requires i <= |s|
    decreases |s| - i
  {
    if i == |s| then []
    else
      var n := CodeMatch(s, i);
      if n > 0 then CodeSpan(s[i..i + 3], s[i + 4..i + n]) + MarkCodesFrom(s, i + n)
      else [s[i]] + MarkCodesFrom(s, i + 1)
  }

  function MarkCodes(s: string): string {
    MarkCodesFrom(s, 0)
  }

  /** Where no match starts, marking copies the text. */
  lemma {:induction false} MarkCodesSkip(s: string, i: nat, k: nat)
    requires i <= k <= |s|
    requires Unmatched(s, i, k)
    ensures MarkCodesFrom(s, i) == s[i..k] + MarkCodesFrom(s, k)
    decreases k - i
  {
    if i < k {
      MarkCodesSkip(s, i + 1, k);
      MarkCodesSkipStep(s, i, k);
    } else {
      assert s[i..k] == [];
    }
  }

  /** No match starts at any index from `i` up to `k`. */
  predicate Unmatched(s: string, i: nat, k: nat)
    requires k <= |s|
  {
    forall j :: i <= j < k ==> CodeMatch(s, j) == 0
  }

  /** `whole` is `x` before `tail`, which is `a` before `c`: so `whole` is
      `b` before `c`, where `b` is `x` before `a`. */
  lemma ConsGlue(x: char, a: string, b: string, c: string, whole: string, tail: string)
    requires whole == [x] + tail && tail == a + c && b == [x] + a
    ensures whole == b + c
  {
  }

  /** One step of `MarkCodesSkip`: a copied character goes in front. */
  lemma MarkCodesSkipStep(s: string, i: nat, k: nat)
    requires i < k <= |s| && CodeMatch(s, i) == 0
    requires MarkCodesFrom(s, i + 1) == s[i + 1..k] + MarkCodesFrom(s, k)
    ensures MarkCodesFrom(s, i) == s[i..k] + MarkCodesFrom(s, k)
  {
    MarkCodesPlain(s, i);
    SliceCons(s, i, k);
    ConsGlue(s[i], s[i + 1..k], s[i..k], MarkCodesFrom(s, k), MarkCodesFrom(s, i), MarkCodesFrom(s, i + 1));
  }

  /** A slice is its first character before the rest. */
  lemma SliceCons(s: string, i: nat, k: nat)
    requires i < k <= |s|
    ensures s[i..k] == [s[i]] + s[i + 1..k]
  {
  }

  lemma MarkCodesPlain(s: string, i: nat)
    requires i < |s| && CodeMatch(s, i) == 0
    ensures MarkCodesFrom(s, i) == [s[i]] + MarkCodesFrom(s, i + 1)
  {
  }

  /** Marking keeps the text before the first match, wraps that match in the
      span of its code's class and goes on after it. */
  lemma MarkCodesFirst(s: string, k: nat)
    requires k < |s| && CodeMatch(s, k) > 0
    requires forall j :: 0 <= j < k ==> CodeMatch(s, j) == 0
    ensures MarkCodes(s) == s[..k] + MarkCodesFrom(s, k)
    ensures var n := CodeMatch(s, k);
            MarkCodesFrom(s, k) == CodeSpan(s[k..k + 3], s[k + 4..k + n]) + MarkCodesFrom(s, k + n)
  {
    MarkCodesSkip(s, 0, k);
    assert s[0..k] == s[..k];
    MarkCodesAt(s, k);
  }

  lemma MarkCodesAt(s: string, i: nat)
    requires i < |s| && CodeMatch(s, i) > 0
    ensures var n := CodeMatch(s, i);
            MarkCodesFrom(s, i) == CodeSpan(s[i..i + 3], s[i + 4..i + n]) + MarkCodesFrom(s, i + n)
  {
  }

  /** Text in which no match starts anywhere is left as it is. */
  lemma MarkCodesNoMatch(s: string)
    requires forall j :: 0 <= j < |s| ==> CodeMatch(s, j) == 0
    ensures MarkCodes(s) == s
  {
    MarkCodesSkip(s, 0, |s|);
    assert s[0..|s|] == s;
  }

  /** Text in which the pattern starts nowhere is left as it is. */
  lemma MarkCodesNoPattern(s: string)
    requires forall j :: 0 <= j < |s| ==> !PatternAt(s, j)
    ensures MarkCodes(s) == s
  {
    forall j | 0 <= j < |s| ensures CodeMatch(s, j) == 0 {
      CodeMatchComplete(s, j);
    }
    MarkCodesNoMatch(s);
  }

  /** Text without decimal digits has no code to mark and is left as it is. */
  lemma MarkCodesDigitFree(s: string)
    requires forall i :: 0 <= i < |s| ==> !IsDigit(s[i])
    ensures MarkCodes(s) == s
  {
    MarkCodesNoMatch(s);
  }

  // ---------------------------------------------------------------------
  // Tables

  const TABLE := "<table>"
  const STYLED_TABLE := "<table class=\"styled-table\">"

  /** The third substitution: `html.replace('<table>', '<table class="styled-table">')`. */
  function StyleTables(html: string): string {
    ReplaceAll(html, TABLE, STYLED_TABLE)
  }

  /** If the result of a replacement starts with `w`, a text in which the
      pattern's opening character does not occur, so did the input. */
  lemma {:induction false} ReplacedPrefix(t: string, pat: string, rep: string, w: string)
    requires |pat| > 0 && |rep| > 0 && rep[0] == pat[0]
    requires pat[0] !in w
    requires StartsWith(ReplaceAll(t, pat, rep), w)
    ensures StartsWith(t, w)
    decreases |t|
  {
    if |t| >= |pat| && w != [] {
      assert ReplaceAll(t, pat, rep)[0] == w[0] && w[0] in w;
      assert t[..|pat|] != pat;
      var r' := ReplaceAll(t[1..], pat, rep);
      assert ReplaceAll(t, pat, rep) == [t[0]] + r';
      assert StartsWith(r', w[1..]) by {
        assert r'[..|w| - 1] == ([t[0]] + r')[1..|w|];
      }
      assert pat[0] !in w[1..] by {
        forall i | 0 <= i < |w| - 1 ensures w[1..][i] != pat[0] { assert w[1..][i] == w[i + 1]; }
      }
      ReplacedPrefix(t[1..], pat, rep, w[1..]);
      assert t[0] == w[0];
      ConsPrefix(t, w);
    }
  }

  /** A text starts with `w` when their first characters agree and the rest
      of the text starts with the rest of `w`. */
  lemma ConsPrefix(t: string, w: string)
    requires |t| > 0 && |w| > 0 && t[0] == w[0] && StartsWith(t[1..], w[1..])
    ensures StartsWith(t, w)
  {
    assert t[..|w|] == [t[0]] + t[1..][..|w| - 1];
    assert w == [w[0]] + w[1..];
  }

  /** After the replacement no occurrence of the pattern is left, provided
      its opening character occurs only at the front of the pattern and of
      the replacement, and the replacement does not start with the pattern. */
  lemma {:induction false} ReplaceLeavesNone(s: string, pat: string, rep: string)
    requires |pat| > 0 && |rep| >= |pat| && rep[0] == pat[0]
    requires pat[0] !in pat[1..] && pat[0] !in rep[1..]
    requires rep[..|pat|] != pat
    ensures forall j :: !OccursAt(ReplaceAll(s, pat, rep), pat, j)
    decreases |s|
  {
    if |s| >= |pat| {
      var r := ReplaceAll(s, pat, rep);
      var r' := ReplaceAll(s[|pat|..], pat, rep);
      var r1 := ReplaceAll(s[1..], pat, rep);
      ReplaceLeavesNone(s[|pat|..], pat, rep);
      ReplaceLeavesNone(s[1..], pat, rep);
      forall j ensures !OccursAt(r, pat, j) {
        if s[..|pat|] == pat {
          assert r == rep + r';
          NoneAfterReplacement(r, pat, rep, r', j);
        } else {
          assert r == [s[0]] + r1;
          NoneAfterCopy(s, pat, rep, r1, r, j);
        }
      }
    }
  }

  /** Replacing at the front leaves no occurrence when the rest has none. */
  lemma NoneAfterReplacement(r: string, pat: string, rep: string, r': string, j: int)
    requires |pat| > 0 && |rep| >= |pat| && rep[0] == pat[0]
    requires pat[0] !in rep[1..] && rep[..|pat|] != pat
    requires r == rep + r' && forall i :: !OccursAt(r', pat, i)
    ensures !OccursAt(r, pat, j)
  {
    if 0 <= j <= |r| - |pat| {
      if j >= |rep| {
        assert r[|rep|..] == r';
        assert r'[j - |rep|..j - |rep| + |pat|] == r[|rep|..][j - |rep|..j - |rep| + |pat|];
        assert !OccursAt(r', pat, j - |rep|);
      } else if 0 < j {
        assert r[j..j + |pat|][0] == r[j] == rep[1..][j - 1];
        assert rep[1..][j - 1] in rep[1..];
      } else {
        assert r[..|pat|] == rep[..|pat|];
      }
    }
  }

  /** Copying a character that does not start the pattern leaves no
      occurrence when the rest, replaced, has none. */
  lemma NoneAfterCopy(s: string, pat: string, rep: string, r1: string, r: string, j: int)
    requires |pat| > 0 && |rep| >= |pat| && rep[0] == pat[0]
    requires pat[0] !in pat[1..]
    requires |s| >= |pat| && s[..|pat|] != pat
    requires r1 == ReplaceAll(s[1..], pat, rep) && r == [s[0]] + r1
    requires forall i :: !OccursAt(r1, pat, i)
    ensures !OccursAt(r, pat, j)
  {
    if 0 <= j <= |r| - |pat| {
      if j >= 1 {
        assert r[1..] == r1;
        assert r1[j - 1..j - 1 + |pat|] == r[1..][j - 1..j - 1 + |pat|];
        assert !OccursAt(r1, pat, j - 1);
      } else {
        assert r1[..|pat| - 1] == r[1..|pat|];
        if s[0] == pat[0] && StartsWith(r1, pat[1..]) {
          ReplacedPrefix(s[1..], pat, rep, pat[1..]);
        }
      }
    }
  }

  /** No bare `<table>` tag survives the styling. */
  lemma {:induction false} StyleTablesComplete(html: string)
    ensures Find(StyleTables(html), TABLE) == -1
  {
    assert TABLE[1..] == "table>";
    assert STYLED_TABLE[..7] == "<table ";
    assert STYLED_TABLE[1..] == "table class=\"styled-table\">";
    ReplaceLeavesNone(html, TABLE, STYLED_TABLE);
  }

  /** Text holding no `<table>` tag is not touched, and before the first
      tag the text is kept as it is. */
  lemma StyleTablesKeepsText(html: string)
    ensures Find(html, TABLE) == -1 ==> StyleTables(html) == html
    ensures Find(html, TABLE) >= 0 ==>
              var k := Find(html, TABLE);
              StyleTables(html) == html[..k] + STYLED_TABLE + StyleTables(html[k + 7..])
  {
    if Find(html, TABLE) == -1 {
      ReplaceAbsent(html, TABLE, STYLED_TABLE);
    } else {
      ReplaceFirst(html, TABLE, STYLED_TABLE, Find(html, TABLE));
    }
  }

  // ---------------------------------------------------------------------
  // Table of contents

  /** A second-level heading found by the heading pattern. */
  datatype Heading = Heading(id: string, title: string)

  const TOC_OPEN := "<div class=\"toc\"><div class=\"toc-title\">Conteúdo</div><ul>"
  const TOC_CLOSE := "</ul></div>"

  function TocItem(h: Heading): string {
    "<li><a href=\"#" + h.id + "\">" + h.title + "</a></li>"
  }

  /** The list items for `hs`, one per heading, in order. */
  function TocItems(hs: seq<Heading>): string
    decreases |hs|
  {
    if hs == [] then "" else TocItems(hs[..|hs| - 1]) + TocItem(hs[|hs| - 1])
  }

  /** The items of two runs of headings are the items of each, in order. */
  lemma {:induction false} TocItemsAppend(a: seq<Heading>, b: seq<Heading>)
    ensures TocItems(a + b) == TocItems(a) + TocItems(b)
    decreases |b|
  {
    if b == [] {
      assert a + b == a;
    } else {
      var init, last := b[..|b| - 1], b[|b| - 1];
      assert (a + b)[..|a + b| - 1] == a + init && (a + b)[|a + b| - 1] == last;
      TocItemsAppend(a, init);
      SnocGlue(TocItems(a + b), TocItems(a + init), TocItems(a), TocItems(init), TocItem(last), TocItems(b));
    }
  }

  /** `whole` is `left` before `x`, `left` is `a` before `m`, and `c` is `m`
      before `x`: so `whole` is `a` before `c`. */
  lemma SnocGlue<T>(whole: seq<T>, left: seq<T>, a: seq<T>, m: seq<T>, x: seq<T>, c: seq<T>)
    requires whole == left + x && left == a + m && c == m + x
    ensures whole == a + c
  {
  }

  /** Every heading contributes exactly its own item, in document order. */
  lemma {:induction false} TocItemsEach(hs: seq<Heading>, i: nat)
    requires i < |hs|
    ensures TocItems(hs) == TocItems(hs[..i]) + TocItem(hs[i]) + TocItems(hs[i + 1..])
  {
    assert hs == hs[..i + 1] + hs[i + 1..];
    TocItemsAppend(hs[..i + 1], hs[i + 1..]);
    assert hs[..i + 1][..i] == hs[..i];
  }

  /** The loop that accumulates the table of contents. */
  method BuildToc(headings: seq<Heading>) returns (toc: string)
    ensures toc == TOC_OPEN + TocItems(headings) + TOC_CLOSE
  {
    toc := TOC_OPEN;
    for i := 0 to |headings|
      invariant toc == TOC_OPEN + TocItems(headings[..i])
    {
      assert headings[..i + 1][..i] == headings[..i];
      toc := toc + TocItem(headings[i]);
    }
    assert headings[..|headings|] == headings;
    toc := toc + TOC_CLOSE;
  }

  /** The index right after the first `</h1>`, computed as `find + 5` and
      then clamped by slicing: 4 (or the end of a shorter text) when there
      is no `</h1>`. */
  function TocOffset(html: string): (k: nat)
    ensures k <= |html|
    ensures Find(html, "</h1>") >= 0 ==> k == Find(html, "</h1>") + 5 && html[k - 5..k] == "</h1>"
    ensures Find(html, "</h1>") == -1 ==> k == if |html| < 4 then |html| else 4
  {
    var e := Find(html, "</h1>") + 5;
    if e > |html| then |html| else e
  }

  /** `html[:k] + toc + html[k:]`. */
  function InsertAt(html: string, k: nat, toc: string): string
    requires k <= |html|
  {
    html[..k] + toc + html[k..]
  }

  /** The inserted contents sit at `k`; taking them out gives the page back. */
  lemma InsertAtRemovable(html: string, k: nat, toc: string)
    requires k <= |html|
    ensures var r := InsertAt(html, k, toc);
            |r| == |html| + |toc| && r[k..k + |toc|] == toc && r[..k] + r[k + |toc|..] == html
  {
    var r := InsertAt(html, k, toc);
    assert r[..k] == html[..k];
    assert r[k + |toc|..] == html[k..];
  }

  /** The last stage: insert the table of contents when there are headings. */
  method AddToc(html: string, headings: seq<Heading>) returns (result: string)
    ensures headings == [] ==> result == html
    ensures headings != [] ==>
              result == InsertAt(html, TocOffset(html), TOC_OPEN + TocItems(headings) + TOC_CLOSE)
  {
    result := html;
    if |headings| > 0 {
      var toc := BuildToc(headings);
      var h1End := Find(html, "</h1>") + 5;
      if h1End > |html| {
        h1End := |html|;
      }
      result := html[..h1End] + toc + html[h1End..];
    }
  }

  /** `process_markdown_for_better_display`: the five stages in order. The
      endpoint and parameter substitutions and the heading search are
      regular-expression stages given as functions. */
  method ProcessMarkdown(html: string, markEndpoints: string -> string, markParameters: string -> string,
                         findHeadings: string -> seq<Heading>)
    returns (result: string)
    ensures var h := markParameters(StyleTables(MarkCodes(markEndpoints(html))));
            (findHeadings(h) == [] ==> result == h)
            && (findHeadings(h) != [] ==>
                  result == InsertAt(h, TocOffset(h), TOC_OPEN + TocItems(findHeadings(h)) + TOC_CLOSE))
  {
    var content := markEndpoints(html);
    content := MarkCodes(content);
    content := StyleTables(content);
    content := markParameters(content);
    var headings := findHeadings(content);
    result := AddToc(content, headings);
  }

  // ---------------------------------------------------------------------
  // CSV lookup

  /** `os.path.basename`: what follows the last '/'. */
  function Basename(p: string): (r: string)
    ensures '/' !in r && EndsWith(p, r)
    ensures |r| < |p| ==> p[|p| - |r| - 1] == '/'
    decreases |p|
  {
    if p == [] || p[|p| - 1] == '/' then []
    else
      var r := Basename(p[..|p| - 1]) + [p[|p| - 1]];
      assert p[|p| - |r|..] == p[..|p| - 1][|p| - |r|..] + [p[|p| - 1]];
      r
  }

  /** A name without '/' is its own basename. */
  lemma {:induction false} BasenameOfName(p: string)
    requires '/' !in p
    ensures Basename(p) == p
    decreases |p|
  {
    if p != [] {
      BasenameOfName(p[..|p| - 1]);
      assert p[..|p| - 1] + [p[|p| - 1]] == p;
    }
  }

  /** An entry of the analytics folder: a file, or a folder listing its names. */
  datatype Entry = FileEntry | DirEntry(names: seq<string>)

  /** The analytics folder: its entries, its own listing and the listing of
      the folder it sits in (reached through ".."). */
  datatype Analytics = Analytics(entries: map<string, Entry>, own: seq<string>, parent: seq<string>)

  /** The folder that `./analytics/<name>` denotes, when it is one; "" and
      "." denote the analytics folder itself and ".." its parent. */
  function Resolve(a: Analytics, name: string): (r: Option<seq<string>>)
    ensures name != "" && name != "." && name != ".." ==> r == ResolveChild(a, name)
    ensures name == "" || name == "." ==> r == Some(a.own)
    ensures name == ".." ==> r == Some(a.parent)
  {
    if name == "" || name == "." then Some(a.own)
    else if name == ".." then Some(a.parent)
    else if name in a.entries && a.entries[name].DirEntry? then Some(a.entries[name].names)
    else None
  }

  /** Only direct sub-folders of the analytics folder, never the folder
      itself or its parent. */
  function ResolveChild(a: Analytics, name: string): (r: Option<seq<string>>)
    ensures r.Some? <==> name in a.entries && a.entries[name].DirEntry?
  {
    if name in a.entries && a.entries[name].DirEntry? then Some(a.entries[name].names) else None
  }

  /** The names that `glob("*.csv")` yields, in enumeration order. */
  function CsvNames(names: seq<string>): (r: seq<string>)
    ensures forall n :: n in r <==> n in names && EndsWith(n, ".csv")
    decreases |names|
  {
    if names == [] then []
    else
      var rest := CsvNames(names[..|names| - 1]);
      var last := names[|names| - 1];
      assert names == names[..|names| - 1] + [last];
      if EndsWith(last, ".csv") then rest + [last] else rest
  }

  /** The glob works name by name, so it keeps the listing order. */
  lemma {:induction false} CsvNamesAppend(a: seq<string>, b: seq<string>)
    ensures CsvNames(a + b) == CsvNames(a) + CsvNames(b)
    decreases |b|
  {
    if b == [] {
      assert a + b == a;
    } else {
      var init, last := b[..|b| - 1], b[|b| - 1];
      CsvNamesAppend(a, init);
      var ab := a + b;
      assert ab[..|ab| - 1] == a + init && ab[|ab| - 1] == last;
    }
  }

  /** The first CSV name is the first name in the listing that ends in ".csv". */
  lemma {:induction false} FirstCsv(names: seq<string>)
    requires CsvNames(names) != []
    ensures exists i :: 0 <= i < |names| && names[i] == CsvNames(names)[0]
              && (forall j :: 0 <= j < i ==> !EndsWith(names[j], ".csv"))
    decreases |names|
  {
    var init := names[..|names| - 1];
    if CsvNames(init) != [] {
      FirstCsv(init);
      var i :| 0 <= i < |init| && init[i] == CsvNames(init)[0] && (forall j :: 0 <= j < i ==> !EndsWith(init[j], ".csv"));
      assert names[i] == init[i];
      assert forall j :: 0 <= j < i ==> names[j] == init[j];
    } else {
      var i := |names| - 1;
      assert forall j :: 0 <= j < i ==> names[j] == init[j] && names[j] in init && !EndsWith(names[j], ".csv");
      assert names[i] == CsvNames(names)[0];
    }
  }

  /** The answer to `GET /analytics/{video_name}`. */
  datatype Response =
    | NotFound(detail: string)
    | CsvFile(folder: string, filename: string, mediaType: string)

  function ServeFrom(folder: string, listing: Option<seq<string>>): (r: Response) {
    if listing.None? then NotFound("Pasta '" + folder + "' não encontrada")
    else
      var csvs := CsvNames(listing.value);
      if csvs == [] then NotFound("Nenhum arquivo CSV encontrado na pasta '" + folder + "'")
      else CsvFile(folder, csvs[0], "text/csv")
  }

  /** `get_csv_file` as written: the basename is looked up under the
      analytics folder, which still lets ".." through. */
  function GetCsvFileAsWritten(a: Analytics, videoName: string): (r: Response)
    ensures var listing := Resolve(a, Basename(videoName));
            && (r.CsvFile? <==> listing.Some? && CsvNames(listing.value) != [])
            && (r.CsvFile? ==> r.filename == CsvNames(listing.value)[0])
            && (r.CsvFile? ==> r.folder == Basename(videoName) && r.filename in listing.value
                                && EndsWith(r.filename, ".csv") && r.mediaType == "text/csv")
  {
    var folder := Basename(videoName);
    ServeFrom(folder, Resolve(a, folder))
  }

  /** With ".." the lookup leaves the analytics folder and serves the first
      CSV of its parent. */
  lemma ParentEscapes(a: Analytics)
    requires CsvNames(a.parent) != []
    ensures GetCsvFileAsWritten(a, "..") == CsvFile("..", CsvNames(a.parent)[0], "text/csv")
  {
    BasenameOfName("..");
  }

  /** `get_csv_file` restricted to direct sub-folders, as its comment intends. */
  function GetCsvFile(a: Analytics, videoName: string): (r: Response)
    ensures r.CsvFile? ==> r.folder == Basename(videoName) && '/' !in r.folder
  {
    var folder := Basename(videoName);
    ServeFrom(folder, ResolveChild(a, folder))
  }

  /** A file is served only from a sub-folder of the analytics folder, and
      then it is the first CSV of that folder with the CSV media type; the
      two 404 answers cover a missing folder and a folder without CSV. */
  lemma GetCsvFileCases(a: Analytics, videoName: string)
    ensures var folder := Basename(videoName);
            var r := GetCsvFile(a, videoName);
            && (r.CsvFile? <==> folder in a.entries && a.entries[folder].DirEntry?
                                  && CsvNames(a.entries[folder].names) != [])
            && (r.CsvFile? ==> r.filename == CsvNames(a.entries[folder].names)[0]
                                && r.filename in a.entries[folder].names && r.mediaType == "text/csv")
            && (r.NotFound? && (folder !in a.entries || !a.entries[folder].DirEntry?) ==>
                  r.detail == "Pasta '" + folder + "' não encontrada")
  {
    var folder := Basename(videoName);
    if folder in a.entries && a.entries[folder].DirEntry? && CsvNames(a.entries[folder].names) != [] {
      assert CsvNames(a.entries[folder].names)[0] in CsvNames(a.entries[folder].names);
    }
  }

  /** For every name that is a real sub-folder the two versions agree. */
  lemma GetCsvFileAgrees(a: Analytics, videoName: string)
    requires var f := Basename(videoName); f != "" && f != "." && f != ".."
    ensures GetCsvFile(a, videoName) == GetCsvFileAsWritten(a, videoName)
  {
  }

  // ---------------------------------------------------------------------
  // Folder listing

  datatype ListResponse = ListResponse(folders: seq<string>, count: nat) | ServerError

  /** The names of `listing` that are folders, in order. */
  function FoldersOf(a: Analytics, listing: seq<string>): (r: seq<string>)
    ensures forall n :: n in r <==> n in listing && n in a.entries && a.entries[n].DirEntry?
    ensures |r| <= |listing|
    decreases |listing|
  {
    if listing == [] then []
    else
      var rest := FoldersOf(a, listing[..|listing| - 1]);
      var last := listing[|listing| - 1];
      assert listing == listing[..|listing| - 1] + [last];
      if last in a.entries && a.entries[last].DirEntry? then rest + [last] else rest
  }

  /** The folders are picked name by name, so they keep the listing order. */
  lemma {:induction false} FoldersOfAppend(a: Analytics, l1: seq<string>, l2: seq<string>)
    ensures FoldersOf(a, l1 + l2) == FoldersOf(a, l1) + FoldersOf(a, l2)
    decreases |l2|
  {
    if l2 == [] {
      assert l1 + l2 == l1;
    } else {
      var init, last := l2[..|l2| - 1], l2[|l2| - 1];
      assert l2 == init + [last];
      assert l1 + l2 == (l1 + init) + [last];
      FoldersOfSnoc(a, init, last);
      FoldersOfSnoc(a, l1 + init, last);
      FoldersOfAppend(a, l1, init);
      var own := if last in a.entries && a.entries[last].DirEntry? then [last] else [];
      SnocGlue(FoldersOf(a, l1 + l2), FoldersOf(a, l1 + init), FoldersOf(a, l1), FoldersOf(a, init), own, FoldersOf(a, l2));
    }
  }

  /** One more listed name adds itself when it is a folder. */
  lemma FoldersOfSnoc(a: Analytics, init: seq<string>, last: string)
    ensures FoldersOf(a, init + [last])
            == FoldersOf(a, init) + (if last in a.entries && a.entries[last].DirEntry? then [last] else [])
  {
    var l := init + [last];
    assert l[..|l| - 1] == init && l[|l| - 1] == last;
  }

  /** `GET /list`: the sub-folders and their count, or a server error when
      the analytics folder cannot be listed. */
  function ListAvailableVideos(a: Analytics, readable: bool): (r: ListResponse)
    ensures !readable <==> r.ServerError?
    ensures r.ListResponse? ==> r.count == |r.folders|
                                && (forall n :: n in r.folders ==> ResolveChild(a, n).Some?)
                                && (forall n :: n in a.own && ResolveChild(a, n).Some? ==> n in r.folders)
  {
    if readable then
      var folders := FoldersOf(a, a.own);
      ListResponse(folders, |folders|)
    else ServerError
  }
}
