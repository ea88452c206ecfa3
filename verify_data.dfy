/**
 * The offline catalog check (verify_data.js): it collects the valid tags from
 * the category table, scans every project record for a missing or non-array
 * `tags`, for tags outside the valid set and for falsy required fields, and
 * ends the process with status 1 if anything was wrong and 0 otherwise.
 *
 * The console messages and the process exit become the method's results: the
 * list of error reports, in the order they are printed, and the exit status.
 */
module DataCheck {
  import opened Constants

  /** A JavaScript value as it can appear in a project record. */
  datatype Value =
    | Undefined
    | Null
    | Bool(b: bool)
    | Num(n: int)
    | Str(s: string)
    | Arr(items: seq<Value>)
    | Obj(fields: map<string, Value>)

  /** JavaScript truthiness: `false`, `0`, `""`, `null` and `undefined` are falsy. */
  predicate Truthy(v: Value)
    ensures Truthy(v) <==> v !in {Undefined, Null, Bool(false), Num(0), Str("")}
  {
    match v
    case Undefined => false
    case Null => false
    case Bool(b) => b
    case Num(n) => n != 0
    case Str(s) => s != ""
    case Arr(_) => true
    case Obj(_) => true
  }

  /** A project record: its own properties; an absent property reads as `undefined`. */
  type Project = map<string, Value>

  function Field(p: Project, name: string): Value {
    if name in p then p[name] else Undefined
  }

  /** The fields every project must carry with a truthy value, in checking order. */
  const RequiredFields: seq<string> := ["title", "description", "url", "tags", "image"]

  /** What one error line reports. */
  datatype Issue =
    | TagsMissingOrNotArray
    | InvalidTag(tag: Value)
    | MissingField(field: string)

  /** One error line: the project's position and title, and the issue. */
  datatype Report = Report(index: nat, title: Value, issue: Issue)

  // ---------------------------------------------------------------------------
  // Specification
  // ---------------------------------------------------------------------------

  /** `Set.prototype.has` on a set that holds only strings. */
  predicate IsValidTag(v: Value, valid: set<string>) {
    v.Str? && v.s in valid
  }

  /**
   * A value passes `validTags.has` exactly when it is a string listed under
   * some category: the set holds only the categories' strings, and `has`
   * never equates a string with a value of another type.
   */
  lemma ValidTagIffListed(v: Value, cats: seq<Category>)
    ensures IsValidTag(v, AllTags(cats)) <==> v.Str? && exists i :: 0 <= i < |cats| && v.s in cats[i].tags
  {
    if v.Str? {
      AllTagsMembership(cats, v.s);
    }
  }

  /** The issues raised by the tag check, one per invalid tag in list order. */
  function InvalidTags(items: seq<Value>, valid: set<string>): seq<Issue> {
    if items == [] then []
    else
      var last := items[|items| - 1];
      InvalidTags(items[..|items| - 1], valid) + (if IsValidTag(last, valid) then [] else [InvalidTag(last)])
  }

  function TagIssues(p: Project, valid: set<string>): seq<Issue> {
    var tags := Field(p, "tags");
    if !Truthy(tags) || !tags.Arr? then [TagsMissingOrNotArray] else InvalidTags(tags.items, valid)
  }

  /** The issues raised by the required-field check, in the order of `fields`. */
  function FieldIssues(p: Project, fields: seq<string>): seq<Issue> {
    if fields == [] then []
    else
      var last := fields[|fields| - 1];
      FieldIssues(p, fields[..|fields| - 1]) + (if Truthy(Field(p, last)) then [] else [MissingField(last)])
  }

  /** Everything reported about one project, in the order it is printed. */
  function ProjectIssues(p: Project, valid: set<string>): seq<Issue> {
    TagIssues(p, valid) + FieldIssues(p, RequiredFields)
  }

  /** The issues of the project at `index`, as report lines. */
  function Label(index: nat, title: Value, issues: seq<Issue>): (r: seq<Report>)
    ensures |r| == |issues|
    ensures forall k :: 0 <= k < |r| ==> r[k] == Report(index, title, issues[k])
  {
    seq(|issues|, k requires 0 <= k < |issues| => Report(index, title, issues[k]))
  }

  /** Every report line of the whole run, project by project. */
  function Reports(projects: seq<Project>, valid: set<string>): seq<Report> {
    if projects == [] then []
    else
      var n := |projects| - 1;
      Reports(projects[..n], valid) + Label(n, Field(projects[n], "title"), ProjectIssues(projects[n], valid))
  }

  /** What a correct project looks like, stated without the checking loops. */
  predicate ProjectOk(p: Project, valid: set<string>) {
    && Field(p, "tags").Arr?
    && (forall v :: v in Field(p, "tags").items ==> IsValidTag(v, valid))
    && (forall f :: f in RequiredFields ==> Truthy(Field(p, f)))
  }

  // ---------------------------------------------------------------------------
  // The script (verify_data.js:8-45)
  // ---------------------------------------------------------------------------

  /** Fills the set of valid tags from every tag list of the table. */
  method CollectValidTags(cats: seq<Category>) returns (valid: set<string>)
    ensures valid == AllTags(cats)
  {
    valid := {};
    var i := 0;
    while i < |cats|
      invariant 0 <= i <= |cats|
      invariant valid == AllTags(cats[..i])
    {
      var tags := cats[i].tags;
      var j := 0;
      while j < |tags|
        invariant 0 <= j <= |tags|
        invariant valid == AllTags(cats[..i]) + Elements(tags[..j])
      {
        assert tags[..j + 1] == tags[..j] + [tags[j]];
        valid := valid + {tags[j]};
        j := j + 1;
      }
      assert tags[..j] == tags;
      assert cats[..i + 1][..i] == cats[..i];
      i := i + 1;
    }
    assert cats[..i] == cats;
  }

  /**
   * Checks every project against the valid tags of `cats` and returns the
   * error lines and the exit status; the error flag is never cleared, and a
   * failing project does not stop the scan.
   */
  method VerifyData(cats: seq<Category>, projects: seq<Project>) returns (reports: seq<Report>, exitCode: int)
    ensures reports == Reports(projects, AllTags(cats))
    ensures exitCode == 0 <==> forall i :: 0 <= i < |projects| ==> ProjectOk(projects[i], AllTags(cats))
    ensures exitCode == 1 <==> exists i :: 0 <= i < |projects| && !ProjectOk(projects[i], AllTags(cats))
  {
    var valid := CollectValidTags(cats);
    var hasError := false;
    reports := [];
    var index := 0;
    assert projects[..index] == [];
    while index < |projects|
      invariant 0 <= index <= |projects|
      invariant reports == Reports(projects[..index], valid)
      invariant hasError <==> reports != []
    {
      var lines;
      lines, hasError := CheckProject(index, projects[index], valid, hasError);
      reports := reports + lines;
      ReportsStep(projects, index, valid);
      index := index + 1;
    }
    assert projects[..index] == projects;
    ReportsEmptyIffAllOk(projects, valid);
    exitCode := if hasError then 1 else 0;
  }

  /**
   * The body of the scan for the project at `index`: the tag check, then the
   * required-field check. The flag comes out raised if it went in raised or
   * if any line was reported.
   */
  method CheckProject(index: nat, project: Project, valid: set<string>, hasError: bool)
    returns (lines: seq<Report>, hasError': bool)
    ensures lines == Label(index, Field(project, "title"), ProjectIssues(project, valid))
    ensures hasError' <==> hasError || lines != []
  {
    var tagLines, fieldLines;
    tagLines, hasError' := CheckTags(index, project, valid, hasError);
    fieldLines, hasError' := CheckFields(index, project, hasError');
    lines := tagLines + fieldLines;
    LabelAppend(index, Field(project, "title"), TagIssues(project, valid), FieldIssues(project, RequiredFields));
  }

  /** The tag check of one project: a missing or non-array `tags`, or each tag outside `valid`. */
  method CheckTags(index: nat, project: Project, valid: set<string>, hasError: bool)
    returns (lines: seq<Report>, hasError': bool)
    ensures lines == Label(index, Field(project, "title"), TagIssues(project, valid))
    ensures hasError' <==> hasError || lines != []
  {
    var title := Field(project, "title");
    var tags := Field(project, "tags");
    hasError' := hasError;
    lines := [];
    if !Truthy(tags) || !tags.Arr? {
      lines := lines + [Report(index, title, TagsMissingOrNotArray)];
      hasError' := true;
    } else {
      ghost var issues: seq<Issue> := [];
      var k := 0;
      while k < |tags.items|
        invariant 0 <= k <= |tags.items|
        invariant issues == InvalidTags(tags.items[..k], valid)
        invariant lines == Label(index, title, issues)
        invariant hasError' <==> hasError || lines != []
      {
        var tag := tags.items[k];
        InvalidTagsStep(tags.items, k, valid);
        if !IsValidTag(tag, valid) {
          lines := lines + [Report(index, title, InvalidTag(tag))];
          hasError' := true;
          LabelAppend(index, title, issues, [InvalidTag(tag)]);
          issues := issues + [InvalidTag(tag)];
        }
        k := k + 1;
      }
      assert tags.items[..k] == tags.items;
    }
  }

  /** The required-field check of one project: each required field that is falsy, in order. */
  method CheckFields(index: nat, project: Project, hasError: bool)
    returns (lines: seq<Report>, hasError': bool)
    ensures lines == Label(index, Field(project, "title"), FieldIssues(project, RequiredFields))
    ensures hasError' <==> hasError || lines != []
  {
    var title := Field(project, "title");
    hasError' := hasError;
    lines := [];
    ghost var issues: seq<Issue> := [];
    var f := 0;
    while f < |RequiredFields|
      invariant 0 <= f <= |RequiredFields|
      invariant issues == FieldIssues(project, RequiredFields[..f])
      invariant lines == Label(index, title, issues)
      invariant hasError' <==> hasError || lines != []
    {
      var field := RequiredFields[f];
      FieldIssuesStep(project, RequiredFields, f);
      if !Truthy(Field(project, field)) {
        lines := lines + [Report(index, title, MissingField(field))];
        hasError' := true;
        LabelAppend(index, title, issues, [MissingField(field)]);
        issues := issues + [MissingField(field)];
      }
      f := f + 1;
    }
    assert RequiredFields[..f] == RequiredFields;
  }

  lemma LabelAppend(index: nat, title: Value, a: seq<Issue>, b: seq<Issue>)
    ensures Label(index, title, a + b) == Label(index, title, a) + Label(index, title, b)
  {
  }

  lemma InvalidTagsStep(items: seq<Value>, k: nat, valid: set<string>)
    requires k < |items|
    ensures InvalidTags(items[..k + 1], valid) ==
            InvalidTags(items[..k], valid) + (if IsValidTag(items[k], valid) then [] else [InvalidTag(items[k])])
  {
    assert items[..k + 1][..k] == items[..k];
  }

  lemma FieldIssuesStep(p: Project, fields: seq<string>, f: nat)
    requires f < |fields|
    ensures FieldIssues(p, fields[..f + 1]) ==
            FieldIssues(p, fields[..f]) + (if Truthy(Field(p, fields[f])) then [] else [MissingField(fields[f])])
  {
    assert fields[..f + 1][..f] == fields[..f];
  }

  lemma ReportsStep(projects: seq<Project>, index: nat, valid: set<string>)
    requires index < |projects|
    ensures Reports(projects[..index + 1], valid) ==
            Reports(projects[..index], valid) +
            Label(index, Field(projects[index], "title"), ProjectIssues(projects[index], valid))
  {
    assert projects[..index + 1][..index] == projects[..index];
  }

  // ---------------------------------------------------------------------------
  // Properties
  // ---------------------------------------------------------------------------

  /** The tag check reports exactly the tags that fail `Set.has`. */
  lemma {:induction false} InvalidTagsExactly(items: seq<Value>, valid: set<string>, v: Value)
    ensures InvalidTag(v) in InvalidTags(items, valid) <==> v in items && !IsValidTag(v, valid)
    ensures forall x :: x in InvalidTags(items, valid) ==> x.InvalidTag?
  {
    if items != [] {
      var init := items[..|items| - 1];
      InvalidTagsExactly(init, valid, v);
      assert items == init + [items[|items| - 1]];
    }
  }

  /** The field check reports exactly the falsy fields among `fields`. */
  lemma {:induction false} FieldIssuesExactly(p: Project, fields: seq<string>, f: string)
    ensures MissingField(f) in FieldIssues(p, fields) <==> f in fields && !Truthy(Field(p, f))
    ensures forall x :: x in FieldIssues(p, fields) ==> x.MissingField?
  {
    if fields != [] {
      var init := fields[..|fields| - 1];
      FieldIssuesExactly(p, init, f);
      assert fields == init + [fields[|fields| - 1]];
    }
  }

  /** A project raises no issue exactly when it is correct. */
  lemma ProjectIssuesEmptyIffOk(p: Project, valid: set<string>)
    ensures ProjectIssues(p, valid) == [] <==> ProjectOk(p, valid)
  {
    var tags := Field(p, "tags");
    if tags.Arr? {
      if exists v :: v in tags.items && !IsValidTag(v, valid) {
        var v :| v in tags.items && !IsValidTag(v, valid);
        InvalidTagsExactly(tags.items, valid, v);
      }
      if InvalidTags(tags.items, valid) != [] {
        InvalidTagsExactly(tags.items, valid, Undefined);
        var x := InvalidTags(tags.items, valid)[0];
        InvalidTagsExactly(tags.items, valid, x.tag);
      }
    }
    if exists f :: f in RequiredFields && !Truthy(Field(p, f)) {
      var f :| f in RequiredFields && !Truthy(Field(p, f));
      FieldIssuesExactly(p, RequiredFields, f);
    }
    if FieldIssues(p, RequiredFields) != [] {
      FieldIssuesExactly(p, RequiredFields, "");
      var x := FieldIssues(p, RequiredFields)[0];
      FieldIssuesExactly(p, RequiredFields, x.field);
    }
  }

  /**
   * The tag-shape error is raised exactly when `tags` is not an array, and a
   * missing (falsy) `tags` raises the required-field error as well.
   */
  lemma TagsShapeIssues(p: Project, valid: set<string>)
    ensures TagsMissingOrNotArray in ProjectIssues(p, valid) <==> !Field(p, "tags").Arr?
    ensures MissingField("tags") in ProjectIssues(p, valid) <==> !Truthy(Field(p, "tags"))
  {
    var tags := Field(p, "tags");
    FieldIssuesExactly(p, RequiredFields, "tags");
    if tags.Arr? {
      InvalidTagsExactly(tags.items, valid, Undefined);
      assert TagsMissingOrNotArray !in InvalidTags(tags.items, valid);
    }
    assert TagsMissingOrNotArray !in FieldIssues(p, RequiredFields);
    assert MissingField("tags") !in TagIssues(p, valid);
  }

  /** Each report line names a real project, its title, and an issue of that project. */
  lemma {:induction false} ReportsDescribeProjects(projects: seq<Project>, valid: set<string>)
    ensures forall r :: r in Reports(projects, valid) ==>
              r.index < |projects| && r.title == Field(projects[r.index], "title") &&
              r.issue in ProjectIssues(projects[r.index], valid)
  {
    if projects != [] {
      var n := |projects| - 1;
      ReportsDescribeProjects(projects[..n], valid);
      forall r | r in Reports(projects[..n], valid)
        ensures projects[..n][r.index] == projects[r.index]
      {
      }
    }
  }

  /**
   * The scan does not stop at the first failure: a project has a report line
   * exactly when it is not correct, wherever it stands in the catalog.
   */
  lemma EveryFailingProjectReported(projects: seq<Project>, valid: set<string>, i: nat)
    requires i < |projects|
    ensures (exists r :: r in Reports(projects, valid) && r.index == i) <==> !ProjectOk(projects[i], valid)
  {
    ReportedIffIssues(projects, valid, i);
    ProjectIssuesEmptyIffOk(projects[i], valid);
  }

  lemma {:induction false} ReportedIffIssues(projects: seq<Project>, valid: set<string>, i: nat)
    requires i < |projects|
    ensures (exists r :: r in Reports(projects, valid) && r.index == i) <==> ProjectIssues(projects[i], valid) != []
  {
    var n := |projects| - 1;
    var init := projects[..n];
    var lines := Label(n, Field(projects[n], "title"), ProjectIssues(projects[n], valid));
    assert Reports(projects, valid) == Reports(init, valid) + lines;
    assert forall r :: r in lines ==> r.index == n;
    if i < n {
      ReportedIffIssues(init, valid, i);
      assert init[i] == projects[i];
      if exists r :: r in Reports(projects, valid) && r.index == i {
        var r :| r in Reports(projects, valid) && r.index == i;
        assert r in Reports(init, valid);
      }
      if ProjectIssues(projects[i], valid) != [] {
        var r :| r in Reports(init, valid) && r.index == i;
        assert r in Reports(projects, valid);
      }
    } else {
      ReportsDescribeProjects(init, valid);
      if exists r :: r in Reports(projects, valid) && r.index == i {
        var r :| r in Reports(projects, valid) && r.index == i;
        assert r !in Reports(init, valid);
        assert r in lines;
      }
      if ProjectIssues(projects[n], valid) != [] {
        assert lines[0] in Reports(projects, valid);
      }
    }
  }

  /** There is no report line at all exactly when every project is correct. */
  lemma {:induction false} ReportsEmptyIffAllOk(projects: seq<Project>, valid: set<string>)
    ensures Reports(projects, valid) == [] <==> forall i :: 0 <= i < |projects| ==> ProjectOk(projects[i], valid)
  {
    if projects != [] {
      var n := |projects| - 1;
      var init := projects[..n];
      ReportsEmptyIffAllOk(init, valid);
      var issues := ProjectIssues(projects[n], valid);
      var lines := Label(n, Field(projects[n], "title"), issues);
      ProjectIssuesEmptyIffOk(projects[n], valid);
      assert Reports(projects, valid) == Reports(init, valid) + lines;
      assert |lines| == |issues|;
      AllOkSnoc(projects, valid);
    }
  }

  /** Every project of a non-empty list is correct iff those before the last one and the last one are. */
  lemma AllOkSnoc(projects: seq<Project>, valid: set<string>)
    requires projects != []
    ensures var n := |projects| - 1;
            (forall i :: 0 <= i < |projects| ==> ProjectOk(projects[i], valid)) <==>
            (forall i :: 0 <= i < n ==> ProjectOk(projects[..n][i], valid)) && ProjectOk(projects[n], valid)
  {
    var n := |projects| - 1;
    assert forall i :: 0 <= i < n ==> projects[..n][i] == projects[i];
  }

  // ---------------------------------------------------------------------------
  // The shipped catalog (src/projectData.js)
  // ---------------------------------------------------------------------------

  const ShippedProjects: seq<Project> := [CaveCrystals, Tronic, Pixelocity]

  const CaveCrystals: Project := map[
    "id" := Num(1),
    "title" := Str("Cave Crystals"),
    "description" := Str("An immersive web-based exploration game."),
    "url" := Str("/cave-crystals/index.html"),
    "image" := Str("https://placehold.co/600x400?text=Cave+Crystals"),
    "icon" := Str("\U{1F48E}"),
    "tags" := Arr([Str("Game"), Str("Web"), Str("Adventure")])
  ]

  const Tronic: Project := map[
    "id" := Num(2),
    "title" := Str("Tronic"),
    "description" := Str("A professional web-based Digital Audio Workstation (DAW)."),
    "url" := Str("/tronic/index.html"),
    "image" := Str("https://placehold.co/600x400?text=Tronic"),
    "icon" := Str("\U{1F3B9}"),
    "tags" := Arr([Str("Audio"), Str("DAW"), Str("Music")])
  ]

  const Pixelocity: Project := map[
    "id" := Num(3),
    "title" := Str("Pixelocity"),
    "description" := Str("Real-time image, video, and webcam shader booth."),
    "url" := Str("/pixelocity/index.html"),
    "image" := Str("https://placehold.co/600x400?text=Pixelocity"),
    "icon" := Str("\U{1F308}"),
    "tags" := Arr([Str("Graphics"), Str("Shaders"), Str("Video")])
  ]

  /** The valid tags of the shipped table, list by list. */
  lemma ShippedValidTags()
    ensures AllTags(Categories) ==
            Elements(GamesTags) + Elements(AudioVisualTags) + Elements(ToolsTags) + Elements(ExperimentsTags)
  {
    var c := Categories;
    assert c[..1][..0] == [];
    assert AllTags(c[..1]) == Elements(GamesTags);
    assert c[..2][..1] == c[..1];
    assert AllTags(c[..2]) == AllTags(c[..1]) + Elements(AudioVisualTags);
    assert c[..3][..2] == c[..2];
    assert AllTags(c[..3]) == AllTags(c[..2]) + Elements(ToolsTags);
    assert c[..3] == c[..|c| - 1];
  }

  /** A record whose `tags` is an array of valid tags and whose required fields are all truthy is correct. */
  lemma OkFromFields(p: Project, valid: set<string>, tags: seq<Value>)
    requires Field(p, "tags") == Arr(tags)
    requires forall v :: v in tags ==> IsValidTag(v, valid)
    requires Truthy(Field(p, "title")) && Truthy(Field(p, "description"))
    requires Truthy(Field(p, "url")) && Truthy(Field(p, "image"))
    ensures ProjectOk(p, valid)
  {
  }

  /** A tag listed by a shipped category is a valid tag. */
  lemma ListedIsValid(c: nat, k: nat)
    requires c < |Categories| && k < |Categories[c].tags|
    ensures IsValidTag(Str(Categories[c].tags[k]), AllTags(Categories))
  {
    AllTagsMembership(Categories, Categories[c].tags[k]);
  }

  lemma CaveCrystalsOk()
    ensures ProjectOk(ShippedProjects[0], AllTags(Categories))
  {
    ListedIsValid(0, 0);
    ListedIsValid(3, 0);
    ListedIsValid(0, 5);
    OkFromFields(CaveCrystals, AllTags(Categories), [Str("Game"), Str("Web"), Str("Adventure")]);
  }

  lemma TronicOk()
    ensures ProjectOk(ShippedProjects[1], AllTags(Categories))
  {
    ListedIsValid(1, 0);
    ListedIsValid(1, 1);
    ListedIsValid(1, 2);
    OkFromFields(Tronic, AllTags(Categories), [Str("Audio"), Str("DAW"), Str("Music")]);
  }

  lemma PixelocityOk()
    ensures ProjectOk(ShippedProjects[2], AllTags(Categories))
  {
    ListedIsValid(1, 6);
    ListedIsValid(1, 7);
    ListedIsValid(1, 8);
    OkFromFields(Pixelocity, AllTags(Categories), [Str("Graphics"), Str("Shaders"), Str("Video")]);
  }

  /** Every shipped project passes every check, so the script exits with status 0. */
  lemma ShippedCatalogPasses()
    ensures forall i :: 0 <= i < |ShippedProjects| ==> ProjectOk(ShippedProjects[i], AllTags(Categories))
    ensures Reports(ShippedProjects, AllTags(Categories)) == []
  {
    CaveCrystalsOk();
    TronicOk();
    PixelocityOk();
    ReportsEmptyIffAllOk(ShippedProjects, AllTags(Categories));
  }
}
