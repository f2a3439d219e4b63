/**
 * The chat and lesson text renderer (components/MarkdownRenderer.tsx,
 * `renderContent`). The text is first cut into plain runs and delimited spans
 * (code fences, display math `$$…$$`, single-line inline math `$…$`); then
 * every piece becomes zero or more typed nodes.
 */
module MarkdownRenderer {
  import opened Js

  // ---------------------------------------------------------------------------
  // Delimiters
  // ---------------------------------------------------------------------------

  /** Three backticks start at position `p` of `s`. */
  predicate FenceAt(s: string, p: nat) {
    p + 3 <= |s| && s[p] == '`' && s[p + 1] == '`' && s[p + 2] == '`'
  }

  /** Two dollar signs start at position `p` of `s`. */
  predicate DollarsAt(s: string, p: nat) {
    p + 2 <= |s| && s[p] == '$' && s[p + 1] == '$'
  }

  // ---------------------------------------------------------------------------
  // The scanner: what the capturing regular-expression split produces
  // ---------------------------------------------------------------------------

  /** The nearest fence at or after `from`. */
  function FindFence(s: string, from: nat): (r: Option<nat>)
    requires from <= |s|
    ensures r.Some? ==> from <= r.value && FenceAt(s, r.value)
    ensures forall q :: from <= q && (r.None? || q < r.value) ==> !FenceAt(s, q)
    decreases |s| - from
  {
    if from + 3 > |s| then None
    else if FenceAt(s, from) then Some(from)
    else FindFence(s, from + 1)
  }

  /** The nearest `$$` at or after `from`. */
  function FindDollars(s: string, from: nat): (r: Option<nat>)
    requires from <= |s|
    ensures r.Some? ==> from <= r.value && DollarsAt(s, r.value)
    ensures forall q :: from <= q && (r.None? || q < r.value) ==> !DollarsAt(s, q)
    decreases |s| - from
  {
    if from + 2 > |s| then None
    else if DollarsAt(s, from) then Some(from)
    else FindDollars(s, from + 1)
  }

  /** The nearest `$` at or after `from`, unless a line ends first (`.*?\$`). */
  function FindInlineClose(s: string, from: nat): (r: Option<nat>)
    requires from <= |s|
    ensures r.Some? ==> from <= r.value < |s| && s[r.value] == '$'
    ensures r.Some? ==> forall k :: from <= k < r.value ==> s[k] != '$' && !IsLineTerminator(s[k])
    ensures r.None? ==> forall k :: from <= k < |s| && s[k] == '$' ==> exists j :: from <= j < k && IsLineTerminator(s[j])
    decreases |s| - from
  {
    if from == |s| || IsLineTerminator(s[from]) then None
    else if s[from] == '$' then Some(from)
    else FindInlineClose(s, from + 1)
  }

  function InlineAt(s: string, p: nat): (r: Option<nat>)
    requires p < |s| && s[p] == '$'
    ensures r.Some? ==> p + 2 <= r.value <= |s|
  {
    match FindInlineClose(s, p + 1)
    case Some(q) => Some(q + 1)
    case None => None
  }

  /**
   * Where the span that starts at position `p` ends, if one starts there. The
   * alternatives are tried in order (fence, `$$`, `$`) and each closes at the
   * nearest closing delimiter; an unclosed `$$` falls back to single `$`.
   */
  function MatchAt(s: string, p: nat): (r: Option<nat>)
    requires p <= |s|
    ensures r.Some? ==> p + 2 <= r.value <= |s|
  {
    if FenceAt(s, p) then
      match FindFence(s, p + 3)
      case Some(q) => Some(q + 3)
      case None => None
    else if DollarsAt(s, p) then
      match FindDollars(s, p + 2)
      case Some(q) => Some(q + 2)
      case None => InlineAt(s, p)
    else if p < |s| && s[p] == '$' then InlineAt(s, p)
    else None
  }

  /**
   * The shape of a span: a fence pair with no fence between, a `$$` pair with
   * no `$$` between, or a `$` pair with neither `$` nor a line end between.
   */
  ghost predicate IsSpan(m: string) {
    || (|m| >= 6 && FenceAt(m, 0) && FenceAt(m, |m| - 3)
        && forall k :: 3 <= k < |m| - 3 ==> !FenceAt(m, k))
    || (|m| >= 4 && DollarsAt(m, 0) && DollarsAt(m, |m| - 2)
        && forall k :: 2 <= k < |m| - 2 ==> !DollarsAt(m, k))
    || (|m| >= 2 && m[0] == '$' && m[|m| - 1] == '$'
        && forall k :: 0 < k < |m| - 1 ==> m[k] != '$' && !IsLineTerminator(m[k]))
  }

  /** Every span the scanner cuts out has the shape of a span. */
  lemma MatchIsSpan(s: string, p: nat)
    requires p <= |s| && MatchAt(s, p).Some?
    ensures IsSpan(s[p..MatchAt(s, p).value])
  {
    var e := MatchAt(s, p).value;
    var m := s[p..e];
    if FenceAt(s, p) {
      forall k | 3 <= k < |m| - 3 ensures !FenceAt(m, k) {
        assert !FenceAt(s, p + k);
      }
    } else if DollarsAt(s, p) && FindDollars(s, p + 2).Some? {
      forall k | 2 <= k < |m| - 2 ensures !DollarsAt(m, k) {
        assert !DollarsAt(s, p + k);
      }
    } else {
      forall k | 0 < k < |m| - 1 ensures m[k] != '$' && !IsLineTerminator(m[k]) {
        assert m[k] == s[p + k];
      }
    }
  }

  /** No span starts at a code point other than `$` and the backtick. */
  lemma NoSpanWithoutDelimiter(s: string, p: nat)
    requires p < |s| && s[p] != '$' && s[p] != '`'
    ensures MatchAt(s, p).None?
  {
  }

  /** No span starts anywhere in `[i, j)`. */
  ghost predicate NoSpanIn(s: string, i: nat, j: nat)
    requires i <= j <= |s|
  {
    forall p :: i <= p < j ==> MatchAt(s, p).None?
  }

  /**
   * The split of `s[start..]`, declaratively: plain run, span, plain run, …,
   * plain run. Each plain run holds no position where a span starts, each span
   * is the one that starts right after its plain run, and the search resumes
   * where the span ends.
   */
  ghost predicate SplitFrom(s: string, start: nat, parts: seq<string>)
    decreases |parts|
  {
    && start <= |s|
    && if |parts| <= 1 then
      parts == [s[start..]] && NoSpanIn(s, start, |s|)
    else
      var k := start + |parts[0]|;
      var e := k + |parts[1]|;
      && |parts| >= 3
      && e <= |s|
      && parts[0] == s[start..k]
      && NoSpanIn(s, start, k)
      && MatchAt(s, k) == Some(e)
      && parts[1] == s[k..e]
      && SplitFrom(s, e, parts[2..])
  }

  /**
   * The scan behind `Parts`: the current plain run began at `start`, and no
   * span starts in `[start, k)`.
   */
  function PiecesFrom(s: string, start: nat, k: nat): (r: seq<string>)
    requires start <= k <= |s|
    ensures |r| >= 1
    decreases |s| - k
  {
    if k == |s| then [s[start..]]
    else
      match MatchAt(s, k)
      case Some(e) => [s[start..k], s[k..e]] + PiecesFrom(s, e, e)
      case None => PiecesFrom(s, start, k + 1)
  }

  /** `content.split(/(```[\s\S]*?```|\$\$[\s\S]*?\$\$|\$.*?\$)/g)`. */
  function Parts(s: string): seq<string> {
    PiecesFrom(s, 0, 0)
  }

  /** A plain run, the span after it, and a split of the rest make a split. */
  lemma SplitCons(s: string, start: nat, k: nat, e: nat, rest: seq<string>)
    requires start <= k < e <= |s| && NoSpanIn(s, start, k) && MatchAt(s, k) == Some(e)
    requires SplitFrom(s, e, rest)
    ensures SplitFrom(s, start, [s[start..k], s[k..e]] + rest)
  {
    var parts := [s[start..k], s[k..e]] + rest;
    assert parts[2..] == rest;
  }

  lemma {:induction false} PiecesFromSplit(s: string, start: nat, k: nat)
    requires start <= k <= |s| && NoSpanIn(s, start, k)
    ensures SplitFrom(s, start, PiecesFrom(s, start, k))
    decreases |s| - k
  {
    if k < |s| {
      match MatchAt(s, k)
      case Some(e) =>
        PiecesFromSplit(s, e, e);
        SplitCons(s, start, k, e, PiecesFrom(s, e, e));
      case None =>
        PiecesFromSplit(s, start, k + 1);
    }
  }

  /** The scanner produces the split. */
  lemma PartsSplit(s: string)
    ensures SplitFrom(s, 0, Parts(s))
  {
    PiecesFromSplit(s, 0, 0);
  }

  /** One step of a split: its first plain run, its first span, and the split of the rest. */
  lemma SplitStep(s: string, start: nat, parts: seq<string>) returns (k: nat, e: nat)
    requires SplitFrom(s, start, parts) && |parts| > 1
    ensures k == start + |parts[0]| && e == k + |parts[1]|
    ensures |parts| >= 3 && start <= k < e <= |s|
    ensures parts == [s[start..k], s[k..e]] + parts[2..]
    ensures NoSpanIn(s, start, k) && MatchAt(s, k) == Some(e)
    ensures SplitFrom(s, e, parts[2..])
  {
    k := start + |parts[0]|;
    e := k + |parts[1]|;
    assert parts == [parts[0], parts[1]] + parts[2..];
  }

  /** The scan passes over positions where no span starts without changing its outcome. */
  lemma {:induction false} PiecesSkip(s: string, start: nat, k: nat, j: nat)
    requires start <= k <= j <= |s| && NoSpanIn(s, k, j)
    ensures PiecesFrom(s, start, k) == PiecesFrom(s, start, j)
    decreases j - k
  {
    if k < j {
      assert MatchAt(s, k).None?;
      PiecesSkip(s, start, k + 1, j);
    }
  }

  /** The split is unique: whatever meets `SplitFrom` is what the scanner produces. */
  lemma {:induction false} SplitIsPieces(s: string, start: nat, parts: seq<string>)
    requires SplitFrom(s, start, parts)
    ensures parts == PiecesFrom(s, start, start)
    decreases |parts|
  {
    if |parts| == 1 {
      PiecesSkip(s, start, start, |s|);
    } else {
      var k, e := SplitStep(s, start, parts);
      PiecesSkip(s, start, start, k);
      SplitIsPieces(s, e, parts[2..]);
    }
  }

  /** Hence `Parts` is the only split of the text. */
  lemma SplitUnique(s: string, parts: seq<string>)
    requires SplitFrom(s, 0, parts)
    ensures parts == Parts(s)
  {
    SplitIsPieces(s, 0, parts);
  }

  function Concat(parts: seq<string>): string
    decreases |parts|
  {
    if |parts| == 0 then "" else parts[0] + Concat(parts[1..])
  }

  lemma ConcatTwo(x: string, y: string, rest: seq<string>)
    ensures Concat([x, y] + rest) == x + y + Concat(rest)
  {
    var parts := [x, y] + rest;
    assert parts[1..][1..] == rest;
  }

  lemma SliceThree(s: string, a: nat, b: nat, c: nat)
    requires a <= b <= c <= |s|
    ensures s[a..] == s[a..b] + s[b..c] + s[c..]
  {
  }

  lemma {:induction false} PiecesConcat(s: string, start: nat, k: nat)
    requires start <= k <= |s|
    ensures Concat(PiecesFrom(s, start, k)) == s[start..]
    decreases |s| - k
  {
    if k < |s| {
      match MatchAt(s, k)
      case Some(e) =>
        PiecesConcat(s, e, e);
        ConcatTwo(s[start..k], s[k..e], PiecesFrom(s, e, e));
        SliceThree(s, start, k, e);
      case None =>
        PiecesConcat(s, start, k + 1);
    }
  }

  /** Concatenating the pieces gives the text back. */
  lemma PartsReconstitute(s: string)
    ensures Concat(Parts(s)) == s
  {
    PiecesConcat(s, 0, 0);
  }

  /** Every odd-numbered piece is a span. */
  ghost predicate OddPiecesAreSpans(parts: seq<string>) {
    forall i :: 0 <= i < |parts| && i % 2 == 1 ==> IsSpan(parts[i])
  }

  lemma OddPiecesCons(x: string, y: string, rest: seq<string>)
    requires IsSpan(y) && OddPiecesAreSpans(rest)
    ensures OddPiecesAreSpans([x, y] + rest)
  {
    var parts := [x, y] + rest;
    forall i | 0 <= i < |parts| && i % 2 == 1 ensures IsSpan(parts[i]) {
      if i > 1 {
        assert parts[i] == rest[i - 2];
      }
    }
  }

  lemma {:induction false} PiecesShape(s: string, start: nat, k: nat)
    requires start <= k <= |s|
    ensures |PiecesFrom(s, start, k)| % 2 == 1 && OddPiecesAreSpans(PiecesFrom(s, start, k))
    decreases |s| - k
  {
    if k < |s| {
      match MatchAt(s, k)
      case Some(e) =>
        PiecesShape(s, e, e);
        MatchIsSpan(s, k);
        OddPiecesCons(s[start..k], s[k..e], PiecesFrom(s, e, e));
      case None =>
        PiecesShape(s, start, k + 1);
    }
  }

  /** The pieces alternate: plain run, span, …, plain run. */
  lemma PartsAlternate(s: string)
    ensures |Parts(s)| % 2 == 1
    ensures forall i :: 0 <= i < |Parts(s)| && i % 2 == 1 ==> IsSpan(Parts(s)[i])
  {
    PiecesShape(s, 0, 0);
  }

  lemma {:induction false} PlainRest(s: string, start: nat, k: nat)
    requires start <= k <= |s|
    requires forall i :: k <= i < |s| ==> s[i] != '$' && s[i] != '`'
    ensures PiecesFrom(s, start, k) == [s[start..]]
    decreases |s| - k
  {
    if k < |s| {
      NoSpanWithoutDelimiter(s, k);
      PlainRest(s, start, k + 1);
    }
  }

  /** Text with no `$` and no backtick is a single plain piece. */
  lemma PlainTextIsOnePiece(s: string)
    requires '$' !in s && '`' !in s
    ensures Parts(s) == [s]
  {
    PlainRest(s, 0, 0);
  }

  // ---------------------------------------------------------------------------
  // Classification of the pieces
  // ---------------------------------------------------------------------------

  datatype Node =
    | CodeBlock(lang: string, code: string)
    | DisplayMath(tex: string)
    | InlineMath(tex: string)
    | Heading(level: nat, text: string)
    | Rule
    | ListItem(text: string)
    | Paragraph(text: string)

  /** The kinds of node a line of plain text can become. */
  predicate IsLineKind(n: Node) {
    n.Heading? || n.Rule? || n.ListItem? || n.Paragraph?
  }

  /** `\w`: an ASCII letter, digit or underscore. */
  predicate IsWordChar(c: char) {
    ('a' <= c <= 'z') || ('A' <= c <= 'Z') || ('0' <= c <= '9') || c == '_'
  }

  /** The longest run of word characters at the start of `s` (what `\w*` matches). */
  function WordPrefix(s: string): (r: string)
    ensures r <= s
    ensures forall i :: 0 <= i < |r| ==> IsWordChar(r[i])
    ensures |r| == |s| || !IsWordChar(s[|r|])
    decreases |s|
  {
    if |s| > 0 && IsWordChar(s[0]) then [s[0]] + WordPrefix(s[1..]) else ""
  }

  lemma {:induction false} WordPrefixOf(w: string, rest: string)
    requires forall i :: 0 <= i < |w| ==> IsWordChar(w[i])
    requires rest == [] || !IsWordChar(rest[0])
    ensures WordPrefix(w + rest) == w
    decreases |w|
  {
    if |w| > 0 {
      assert (w + rest)[1..] == w[1..] + rest;
      WordPrefixOf(w[1..], rest);
    }
  }

  /** `part.match(/^```(\w*)\n/)?.[1] || ''`. */
  function CodeLanguage(part: string): string
    requires FenceAt(part, 0)
  {
    var w := WordPrefix(part[3..]);
    if 3 + |w| < |part| && part[3 + |w|] == '\n' then w else ""
  }

  /** `part.replace(/^```\w*\n?/, '').replace(/```$/, '')`, then `trim()`. */
  function CodeBody(part: string): string
    requires FenceAt(part, 0)
  {
    var w := WordPrefix(part[3..]);
    var afterTag := part[3 + |w|..];
    var afterNewline := if |afterTag| > 0 && afterTag[0] == '\n' then afterTag[1..] else afterTag;
    var body :=
      if |afterNewline| >= 3 && FenceAt(afterNewline, |afterNewline| - 3)
      then afterNewline[..|afterNewline| - 3] else afterNewline;
    Trim(body)
  }

  /** `s.slice(k, -k)`: `k` code points off each end, or "" when they overlap. */
  function SliceInner(s: string, k: nat): string {
    if |s| >= 2 * k then s[k..|s| - k] else ""
  }

  /** `part.startsWith('$$') && part.endsWith('$$')`. */
  predicate IsDisplayPart(part: string) {
    DollarsAt(part, 0) && DollarsAt(part, |part| - 2)
  }

  /** `part.startsWith('$') && part.endsWith('$')`. */
  predicate IsInlinePart(part: string) {
    |part| >= 1 && part[0] == '$' && part[|part| - 1] == '$'
  }

  /**
   * The node a line of plain text becomes, if any: always a line kind, a
   * heading of level 1 to 3, and a paragraph holds the whole line.
   */
  function LineNode(line: string): (r: Option<Node>)
    ensures r.Some? ==> IsLineKind(r.value)
    ensures r.Some? && r.value.Heading? ==> 1 <= r.value.level <= 3 && r.value.level + 1 <= |line| && r.value.text == line[r.value.level + 1..]
    ensures r.Some? && r.value.Paragraph? ==> r.value.text == line
  {
    if Trim(line) == "" then None
    else if "# " <= line then Some(Heading(1, line[2..]))
    else if "## " <= line then Some(Heading(2, line[3..]))
    else if "### " <= line then Some(Heading(3, line[4..]))
    else if "---" <= line then Some(Rule)
    else if "- " <= line then Some(ListItem(line[2..]))
    else Some(Paragraph(line))
  }

  /** The nodes of one line: at most one. */
  function LineNodes(line: string): (r: seq<Node>)
    ensures |r| <= 1
    ensures forall i :: 0 <= i < |r| ==> IsLineKind(r[i])
  {
    match LineNode(line)
    case Some(n) => [n]
    case None => []
  }

  /** The nodes of each item in turn, concatenated (`map` followed by React's flattening). */
  function FlatMap(f: string -> seq<Node>, xs: seq<string>): seq<Node>
    decreases |xs|
  {
    if |xs| == 0 then [] else f(xs[0]) + FlatMap(f, xs[1..])
  }

  /** The nodes of consecutive lines, in order. */
  function RenderLines(lines: seq<string>): (r: seq<Node>)
    ensures forall i :: 0 <= i < |r| ==> IsLineKind(r[i])
  {
    LinesGiveLineKinds(lines);
    FlatMap(LineNodes, lines)
  }

  lemma {:induction false} LinesGiveLineKinds(lines: seq<string>)
    ensures forall i :: 0 <= i < |FlatMap(LineNodes, lines)| ==> IsLineKind(FlatMap(LineNodes, lines)[i])
    decreases |lines|
  {
    if |lines| > 0 {
      LinesGiveLineKinds(lines[1..]);
      var h, t := LineNodes(lines[0]), FlatMap(LineNodes, lines[1..]);
      assert FlatMap(LineNodes, lines) == h + t;
      forall i | 0 <= i < |h + t| ensures IsLineKind((h + t)[i]) {
        if i >= |h| {
          assert (h + t)[i] == t[i - |h|];
        }
      }
    }
  }

  /** The nodes of one piece of the split. */
  function RenderPart(part: string): (r: seq<Node>)
    ensures FenceAt(part, 0) ==> |r| == 1 && r[0].CodeBlock?
    ensures part == "" ==> r == []
    ensures |part| > 0 && part[0] != '$' && part[0] != '`' ==> forall i :: 0 <= i < |r| ==> IsLineKind(r[i])
  {
    if FenceAt(part, 0) then
      [CodeBlock(CodeLanguage(part), CodeBody(part))]
    else if IsDisplayPart(part) then
      [DisplayMath(SliceInner(part, 2))]
    else if IsInlinePart(part) then
      [InlineMath(SliceInner(part, 1))]
    else if part != "" then
      RenderLines(Split(part, '\n'))
    else
      []
  }

  function RenderParts(parts: seq<string>): seq<Node> {
    FlatMap(RenderPart, parts)
  }

  /**
   * `renderContent()`: the nodes of the whole text, in order. Text without a
   * `$` or a backtick is one plain part, rendered line by line.
   */
  function Render(content: string): (r: seq<Node>)
    ensures content == "" ==> r == []
    ensures '$' !in content && '`' !in content && content != "" ==> r == RenderLines(Split(content, '\n'))
  {
    if '$' !in content && '`' !in content then
      PlainTextIsOnePiece(content);
      assert [content][1..] == [];
      assert RenderParts([content]) == FlatMap(RenderPart, [content]) == RenderPart(content) + FlatMap(RenderPart, []);
      assert content != "" ==> content[0] in content && !FenceAt(content, 0) && !IsDisplayPart(content) && !IsInlinePart(content);
      RenderParts(Parts(content))
    else
      RenderParts(Parts(content))
  }

  // ---------------------------------------------------------------------------
  // Properties of the classification
  // ---------------------------------------------------------------------------

  /** Every span becomes exactly one code or math node. */
  lemma SpanIsOneNode(m: string)
    requires IsSpan(m)
    ensures |RenderPart(m)| == 1
    ensures RenderPart(m)[0].CodeBlock? || RenderPart(m)[0].DisplayMath? || RenderPart(m)[0].InlineMath?
  {
  }

  lemma {:induction false} FlatMapAppend(f: string -> seq<Node>, a: seq<string>, b: seq<string>)
    ensures FlatMap(f, a + b) == FlatMap(f, a) + FlatMap(f, b)
    decreases |a|
  {
    if |a| > 0 {
      var h := f(a[0]);
      assert (a + b)[0] == a[0] && (a + b)[1..] == a[1..] + b;
      assert FlatMap(f, a + b) == h + FlatMap(f, a[1..] + b);
      FlatMapAppend(f, a[1..], b);
      assert h + (FlatMap(f, a[1..]) + FlatMap(f, b)) == (h + FlatMap(f, a[1..])) + FlatMap(f, b);
    } else {
      assert a + b == b;
    }
  }

  /** Rendering keeps the order of the pieces: it distributes over concatenation. */
  lemma RenderPartsAppend(a: seq<string>, b: seq<string>)
    ensures RenderParts(a + b) == RenderParts(a) + RenderParts(b)
  {
    FlatMapAppend(RenderPart, a, b);
  }

  /** Line rendering keeps the order of the lines: it distributes over concatenation. */
  lemma RenderLinesAppend(a: seq<string>, b: seq<string>)
    ensures RenderLines(a + b) == RenderLines(a) + RenderLines(b)
  {
    FlatMapAppend(LineNodes, a, b);
  }

  function CountNonBlank(lines: seq<string>): nat
    decreases |lines|
  {
    if |lines| == 0 then 0
    else (if IsBlank(lines[0]) then 0 else 1) + CountNonBlank(lines[1..])
  }

  lemma {:induction false} LineCount(lines: seq<string>)
    ensures |FlatMap(LineNodes, lines)| == CountNonBlank(lines) <= |lines|
    decreases |lines|
  {
    if |lines| > 0 {
      BlankLinesVanish(lines[0]);
      LineCount(lines[1..]);
    }
  }

  /** One node per non-blank line, none for a blank one. */
  lemma RenderLinesCount(lines: seq<string>)
    ensures |RenderLines(lines)| == CountNonBlank(lines) <= |lines|
  {
    LineCount(lines);
  }

  /** The tag of a fence followed by a newline is its language, and the body is what lies between. */
  lemma CodeFenceParts(lang: string, body: string)
    requires forall i :: 0 <= i < |lang| ==> IsWordChar(lang[i])
    ensures var part := "```" + lang + "\n" + body + "```";
      FenceAt(part, 0) && CodeLanguage(part) == lang && CodeBody(part) == Trim(body)
  {
    var part := "```" + lang + "\n" + body + "```";
    FenceTag(lang, "\n" + body + "```");
    assert part == "```" + lang + ("\n" + body + "```");
    ClosingFence(body);
    assert ("\n" + body + "```")[1..] == body + "```";
  }

  /** After the opening fence, a word-character tag is the word, and the rest follows it. */
  lemma FenceTag(lang: string, tail: string)
    requires forall i :: 0 <= i < |lang| ==> IsWordChar(lang[i])
    requires tail != [] && !IsWordChar(tail[0])
    ensures var part := "```" + lang + tail;
      FenceAt(part, 0) && WordPrefix(part[3..]) == lang && part[3 + |lang|..] == tail
  {
    var part := "```" + lang + tail;
    assert part[3..] == lang + tail;
    WordPrefixOf(lang, tail);
  }

  /** A body followed by the closing fence ends in a fence, and dropping it gives the body back. */
  lemma ClosingFence(body: string)
    ensures var a := body + "```"; |a| >= 3 && FenceAt(a, |a| - 3) && a[..|a| - 3] == body
  {
    var a := body + "```";
    assert a[..|body|] == body;
  }

  /** A fence with a word-character tag, a newline, a body and a closing fence is one code block. */
  lemma CodeBlockRoundTrip(lang: string, body: string)
    requires forall i :: 0 <= i < |lang| ==> IsWordChar(lang[i])
    ensures RenderPart("```" + lang + "\n" + body + "```") == [CodeBlock(lang, Trim(body))]
  {
    CodeFenceParts(lang, body);
  }

  /** When the tag is not followed straight away by a newline, the language is "". */
  lemma CodeLanguageNeedsNewline(part: string)
    requires FenceAt(part, 0)
    requires var w := WordPrefix(part[3..]); 3 + |w| == |part| || part[3 + |w|] != '\n'
    ensures CodeLanguage(part) == ""
  {
  }

  /** `$$tex$$` is display math holding `tex`. */
  lemma DisplayMathRoundTrip(tex: string)
    ensures RenderPart("$$" + tex + "$$") == [DisplayMath(tex)]
  {
    var part := "$$" + tex + "$$";
    assert IsDisplayPart(part);
    assert part[2..|part| - 2] == tex;
  }

  /** `$tex$` is inline math holding `tex` unless the part also reads as `$$…$$`. */
  lemma InlineMathRoundTrip(tex: string)
    requires |tex| > 0 && (tex[0] != '$' || tex[|tex| - 1] != '$')
    ensures RenderPart("$" + tex + "$") == [InlineMath(tex)]
  {
    var part := "$" + tex + "$";
    assert part[1] == tex[0] && part[|part| - 2] == tex[|tex| - 1];
    assert part[1..|part| - 1] == tex;
  }

  lemma NotBlank(s: string, i: nat)
    requires i < |s| && !IsSpace(s[i])
    ensures Trim(s) != ""
  {
    TrimEmptyIffBlank(s);
  }

  /** A line renders to nothing exactly when it is blank. */
  lemma BlankLinesVanish(line: string)
    ensures LineNode(line).None? <==> IsBlank(line)
  {
    TrimEmptyIffBlank(line);
  }

  /** "# " gives a level-1 heading without the prefix. */
  lemma HeadingOne(text: string)
    ensures LineNode("# " + text) == Some(Heading(1, text))
  {
    NotBlank("# " + text, 0);
    assert ("# " + text)[2..] == text;
  }

  /** "## " gives a level-2 heading without the prefix. */
  lemma HeadingTwo(text: string)
    ensures LineNode("## " + text) == Some(Heading(2, text))
  {
    var line := "## " + text;
    NotBlank(line, 0);
    assert line[1] == '#';
    assert line[3..] == text;
  }

  /** "### " gives a level-3 heading without the prefix. */
  lemma HeadingThree(text: string)
    ensures LineNode("### " + text) == Some(Heading(3, text))
  {
    var line := "### " + text;
    NotBlank(line, 0);
    assert line[1] == '#' && line[2] == '#';
    assert line[4..] == text;
  }

  /** There is no fourth level: "#### " gives a paragraph holding the whole line. */
  lemma NoHeadingFour(text: string)
    ensures LineNode("#### " + text) == Some(Paragraph("#### " + text))
  {
    var line := "#### " + text;
    NotBlank(line, 0);
    assert line[1] == '#' && line[2] == '#' && line[3] == '#';
  }

  /** A line starting with "---" is a rule, whatever follows. */
  lemma RuleLine(rest: string)
    ensures LineNode("---" + rest) == Some(Rule)
  {
    var line := "---" + rest;
    NotBlank(line, 0);
    assert line[0] == '-';
    assert !("# " <= line) && !("## " <= line) && !("### " <= line) && "---" <= line;
  }

  /** "- " gives a list item without the prefix. */
  lemma ListItemLine(text: string)
    ensures LineNode("- " + text) == Some(ListItem(text))
  {
    var line := "- " + text;
    NotBlank(line, 0);
    assert line[0] == '-' && line[1] == ' ';
    assert !("# " <= line) && !("## " <= line) && !("### " <= line) && !("---" <= line) && "- " <= line;
    assert line[2..] == text;
  }

  /** Any other non-blank line is a paragraph holding the line verbatim. */
  lemma OtherLinesAreParagraphs(line: string)
    requires !IsBlank(line)
    requires !("# " <= line) && !("## " <= line) && !("### " <= line) && !("---" <= line) && !("- " <= line)
    ensures LineNode(line) == Some(Paragraph(line))
  {
    TrimEmptyIffBlank(line);
  }

  /** The text "$V=IR$ is Ohm's law" splits into an empty run, the formula and the rest. */
  lemma OhmsLawParts()
    ensures Parts("$V=IR$ is Ohm's law") == ["", "$V=IR$", " is Ohm's law"]
  {
    var s := "$V=IR$ is Ohm's law";
    assert s[1] == 'V' && s[2] == '=' && s[3] == 'I' && s[4] == 'R' && s[5] == '$';
    assert FindInlineClose(s, 5) == Some(5);
    assert FindInlineClose(s, 3) == FindInlineClose(s, 4) == Some(5);
    assert FindInlineClose(s, 1) == FindInlineClose(s, 2) == Some(5);
    assert MatchAt(s, 0) == Some(6);
    PlainRest(s, 6, 6);
    assert s[6..] == " is Ohm's law" && s[0..0] == "" && s[0..6] == "$V=IR$";
  }
}
