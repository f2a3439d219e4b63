/**
 * The learning screen (components/LearningMode.tsx): the module search, the
 * lesson viewer's state, and its line-by-line lesson renderer.
 */
module LearningMode {
  import opened Js
  import opened Types

  /** `filteredModules`: the modules whose lowercased title contains the lowercased search term. */
  function FilterModules(modules: seq<LearningModule>, term: string, lower: string -> string): (r: seq<LearningModule>)
    ensures |r| <= |modules|
    ensures forall i :: 0 <= i < |r| ==> r[i] in modules && Includes(lower(r[i].title), lower(term))
    ensures forall i :: 0 <= i < |modules| && Includes(lower(modules[i].title), lower(term)) ==> modules[i] in r
  {
    Filter(modules, (m: LearningModule) => Includes(lower(m.title), lower(term)))
  }

  /** The filter keeps the catalogue order. */
  lemma FilterModulesKeepsOrder(modules: seq<LearningModule>, term: string, lower: string -> string)
    ensures IsSubsequence(FilterModules(modules, term, lower), modules)
  {
    FilterIsSubsequence(modules, (m: LearningModule) => Includes(lower(m.title), lower(term)));
  }

  /** An empty search term keeps every module, since lowercasing leaves "" as it is. */
  lemma EmptyTermKeepsAll(modules: seq<LearningModule>, lower: string -> string)
    requires lower("") == ""
    ensures FilterModules(modules, "", lower) == modules
  {
    forall i | 0 <= i < |modules| ensures Includes(lower(modules[i].title), lower("")) {
      assert [] <= lower(modules[i].title);
    }
    FilterKeepsAll(modules, (m: LearningModule) => Includes(lower(m.title), lower("")));
  }

  /** What one lesson line renders as. */
  datatype LessonNode = Title(text: string) | Section(text: string) | Subsection(text: string) | Break | Text(text: string)

  /** `line.replace(pattern, '')` with a string pattern: its first occurrence is removed. */
  function ReplaceFirst(s: string, pattern: string): (r: string)
    ensures pattern <= s ==> r == s[|pattern|..]
    ensures |r| <= |s|
    decreases |s|
  {
    if pattern <= s then s[|pattern|..]
    else if s == [] then s
    else [s[0]] + ReplaceFirst(s[1..], pattern)
  }

  /** The renderer's classification of one line: headings by prefix, then blank lines, then paragraphs. */
  function LessonLine(line: string): LessonNode {
    if "# " <= line then Title(ReplaceFirst(line, "# "))
    else if "## " <= line then Section(ReplaceFirst(line, "## "))
    else if "### " <= line then Subsection(ReplaceFirst(line, "### "))
    else if Trim(line) == "" then Break
    else Text(line)
  }

  /** `lessonContent?.split('\n').map(...)`: one node per line; no content, no nodes. */
  function LessonNodes(content: Option<string>): (r: seq<LessonNode>)
    ensures content.None? ==> r == []
    ensures content.Some? ==> |r| == |Split(content.value, '\n')|
    ensures content.Some? ==> forall i :: 0 <= i < |r| ==> r[i] == LessonLine(Split(content.value, '\n')[i])
  {
    match content
    case None => []
    case Some(c) =>
      var lines := Split(c, '\n');
      seq(|lines|, i requires 0 <= i < |lines| => LessonLine(lines[i]))
  }

  /** Lessons made of the same lines render alike, one node per line in order: a lesson of n lines is n nodes. */
  lemma LessonLinesInOrder(lines: seq<string>)
    requires |lines| >= 1 && forall i :: 0 <= i < |lines| ==> '\n' !in lines[i]
    ensures |LessonNodes(Some(Join(lines, '\n')))| == |lines|
    ensures forall i :: 0 <= i < |lines| ==> LessonNodes(Some(Join(lines, '\n')))[i] == LessonLine(lines[i])
  {
    SplitJoin(lines, '\n');
  }

  /** "# " opens a title, without the prefix. */
  lemma TitleLine(text: string)
    ensures LessonLine("# " + text) == Title(text)
  {
    var line := "# " + text;
    assert "# " <= line;
    assert line[2..] == text;
  }

  /** "## " opens a section, without the prefix. */
  lemma SectionLine(text: string)
    ensures LessonLine("## " + text) == Section(text)
  {
    var line := "## " + text;
    assert line[1] == '#';
    assert "## " <= line;
    assert line[3..] == text;
  }

  /** "### " opens a subsection, without the prefix. */
  lemma SubsectionLine(text: string)
    ensures LessonLine("### " + text) == Subsection(text)
  {
    var line := "### " + text;
    assert line[1] == '#' && line[2] == '#';
    assert "### " <= line;
    assert line[4..] == text;
  }

  /** A whitespace-only line is a break. */
  lemma BlankLineBreaks(line: string)
    requires IsBlank(line)
    ensures LessonLine(line) == Break
  {
    TrimEmptyIffBlank(line);
    if |line| > 0 {
      assert IsSpace(line[0]);
    }
  }

  /** "#### " and "- " lines are not special here: they are paragraphs holding the whole line. */
  lemma DeeperHeadingsAndItemsAreText(text: string)
    ensures LessonLine("#### " + text) == Text("#### " + text)
    ensures LessonLine("- " + text) == Text("- " + text)
  {
    var deep := "#### " + text;
    assert deep[1] == '#' && deep[2] == '#' && deep[3] == '#';
    assert !("# " <= deep) && !("## " <= deep) && !("### " <= deep);
    NotBlankAt(deep, 0);
    var item := "- " + text;
    assert item[0] == '-';
    assert !("# " <= item) && !("## " <= item) && !("### " <= item);
    NotBlankAt(item, 0);
  }

  lemma NotBlankAt(s: string, i: nat)
    requires i < |s| && !IsSpace(s[i])
    ensures Trim(s) != ""
  {
    TrimEmptyIffBlank(s);
  }

  /** The state of the lesson viewer. */
  class LessonViewer {
    var selectedModule: Option<string>
    var lessonContent: Option<string>
    var loading: bool

    constructor ()
      ensures selectedModule == None && lessonContent == None && !loading
      ensures !ViewerOpen() && Nodes() == []
    {
      selectedModule := None;
      lessonContent := None;
      loading := false;
    }

    /** `if (selectedModule)`: the viewer is shown for a non-empty title. */
    function ViewerOpen(): (r: bool)
      reads this
      ensures r <==> selectedModule.Some? && selectedModule.value != ""
    {
      selectedModule.Some? && selectedModule.value != ""
    }

    /**
     * The lesson nodes shown: none while the module list is shown or the
     * lesson is loading, else the rendered content.
     */
    function Nodes(): (r: seq<LessonNode>)
      reads this
      ensures !ViewerOpen() || loading || lessonContent.None? ==> r == []
      ensures ViewerOpen() && !loading && lessonContent.Some? ==> |r| == |Split(lessonContent.value, '\n')|
    {
      if !ViewerOpen() || loading then [] else LessonNodes(lessonContent)
    }

    /** The first half of `handleOpenModule`: select the module, clear the old lesson, start loading. */
    method Open(title: string)
      modifies this
      ensures selectedModule == Some(title) && lessonContent == None && loading
      ensures Nodes() == []
    {
      selectedModule := Some(title);
      loading := true;
      lessonContent := None;
    }

    /** The second half of `handleOpenModule`: store the generated lesson and stop loading. */
    method ContentArrived(content: string)
      modifies this
      ensures lessonContent == Some(content) && !loading && selectedModule == old(selectedModule)
      ensures ViewerOpen() ==> |Nodes()| == |Split(content, '\n')|
      ensures !ViewerOpen() ==> Nodes() == []
    {
      lessonContent := Some(content);
      loading := false;
    }

    /** `handleCloseModule`: no module and no content. */
    method Close()
      modifies this
      ensures selectedModule == None && lessonContent == None && loading == old(loading)
      ensures !ViewerOpen() && Nodes() == []
    {
      selectedModule := None;
      lessonContent := None;
    }
  }

  /**
   * The close button is shown while a lesson loads: closing then leaves the
   * module list on screen, and the lesson that arrives afterwards is stored
   * but not shown.
   */
  method CloseWhileLoading(viewer: LessonViewer, title: string, content: string)
    modifies viewer
    ensures viewer.lessonContent == Some(content) && !viewer.loading
    ensures !viewer.ViewerOpen() && viewer.Nodes() == []
  {
    viewer.Open(title);
    viewer.Close();
    viewer.ContentArrived(content);
  }
}
