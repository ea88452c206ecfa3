/**
 * The category table of the gallery (src/constants.js): which tags belong to
 * which high-level category, the icon and colour theme of each category, and
 * the inverted index from a tag to the categories that list it.
 *
 * A JavaScript object literal iterates its entries in insertion order, so the
 * table is a sequence of categories; the inverted index is a map from tag to
 * the list of categories, in the order in which they were pushed.
 */
module Constants {
  import opened Sequences

  /** One entry of CATEGORIES: a category name and its list of member tags. */
  datatype Category = Category(name: string, tags: seq<string>)

  /** The shipped CATEGORIES table, in the order of its object literal. */
  const Categories: seq<Category> := [
    Category("Games", GamesTags),
    Category("Audio/Visual", AudioVisualTags),
    Category("Tools", ToolsTags),
    Category("Experiments", ExperimentsTags)
  ]

  const GamesTags: seq<string> := ["Game", "Fun", "Candy", "Tetris", "Toy", "Adventure"]
  const AudioVisualTags: seq<string> :=
    ["Audio", "DAW", "Music", "Sound", "Ambient", "Relaxation",
     "Graphics", "Shaders", "Video", "Art", "Visualization", "Fluid"]
  const ToolsTags: seq<string> :=
    ["Utility", "Weather", "Clock", "Maps", "360", "Exploration", "UI",
     "Components", "Design", "Data", "Science"]
  const ExperimentsTags: seq<string> := ["Web", "Interactive", "Experiment", "External", "Project", "Portfolio"]

  /** CATEGORY_ICONS: one emoji per category (video game, headphone, hammer and wrench, test tube). */
  const CategoryIcons: map<string, string> := map[
    "Games" := "\U{1F3AE}",
    "Audio/Visual" := "\U{1F3A7}",
    "Tools" := "\U{1F6E0}\U{FE0F}",
    "Experiments" := "\U{1F9EA}"
  ]

  /** CATEGORY_THEMES: four background utility classes per category, plus a fallback. */
  const CategoryThemes: map<string, seq<string>> := map[
    "Games" := ["bg-orange-600/30", "bg-red-600/30", "bg-amber-600/20", "bg-yellow-600/20"],
    "Audio/Visual" := ["bg-fuchsia-600/30", "bg-violet-600/30", "bg-purple-600/20", "bg-pink-600/20"],
    "Tools" := ["bg-blue-600/30", "bg-sky-600/30", "bg-cyan-600/20", "bg-slate-600/20"],
    "Experiments" := ["bg-emerald-600/30", "bg-lime-600/30", "bg-green-600/20", "bg-teal-600/20"],
    "default" := ["bg-blue-600/30", "bg-purple-600/30", "bg-pink-600/20", "bg-cyan-600/20"]
  ]

  // ---------------------------------------------------------------------------
  // Specification functions
  // ---------------------------------------------------------------------------

  /** The category names, in table order. */
  function Names(cats: seq<Category>): (r: seq<string>)
    ensures |r| == |cats|
    ensures forall i :: 0 <= i < |cats| ==> r[i] == cats[i].name
  {
    if cats == [] then [] else Names(cats[..|cats| - 1]) + [cats[|cats| - 1].name]
  }

  /** Object keys are unique: no two entries of the table share a name. */
  predicate DistinctNames(cats: seq<Category>) {
    NoDuplicates(Names(cats))
  }

  /** The union of all tag lists of the table. */
  function AllTags(cats: seq<Category>): set<string> {
    if cats == [] then {} else AllTags(cats[..|cats| - 1]) + Elements(cats[|cats| - 1].tags)
  }

  /** The set of tags of one list. */
  function Elements(s: seq<string>): set<string> {
    set t | t in s
  }

  /** All tag lists of the table, concatenated in table order. */
  function Flatten(cats: seq<Category>): seq<string> {
    if cats == [] then [] else Flatten(cats[..|cats| - 1]) + cats[|cats| - 1].tags
  }

  /** The number of occurrences of `t` in `s`. */
  function Count(s: seq<string>, t: string): nat {
    if s == [] then 0 else Count(s[..|s| - 1], t) + (if s[|s| - 1] == t then 1 else 0)
  }

  /** `n` copies of `x`. */
  function Repeat(x: string, n: nat): (r: seq<string>)
    ensures |r| == n
    ensures forall k :: 0 <= k < n ==> r[k] == x
  {
    if n == 0 then [] else Repeat(x, n - 1) + [x]
  }

  /**
   * The list that the construction loop leaves under tag `t`: for each
   * category in table order, its name once per occurrence of `t` in its list.
   */
  function CategoriesOf(cats: seq<Category>, t: string): seq<string> {
    if cats == [] then []
    else
      var last := cats[|cats| - 1];
      CategoriesOf(cats[..|cats| - 1], t) + Repeat(last.name, Count(last.tags, t))
  }

  /** TAG_TO_CATEGORIES as a value: one entry per listed tag. */
  function TagIndex(cats: seq<Category>): map<string, seq<string>> {
    map t | t in AllTags(cats) :: CategoriesOf(cats, t)
  }

  // ---------------------------------------------------------------------------
  // The construction loop (src/constants.js:25-31)
  // ---------------------------------------------------------------------------

  /**
   * Builds TAG_TO_CATEGORIES by walking the table entry by entry and tag by
   * tag, creating an empty list for a tag seen for the first time and pushing
   * the category name onto the tag's list.
   */
  method BuildTagToCategories(cats: seq<Category>) returns (index: map<string, seq<string>>)
    ensures index == TagIndex(cats)
  {
    index := map[];
    var i := 0;
    while i < |cats|
      invariant 0 <= i <= |cats|
      invariant index == TagIndex(cats[..i])
    {
      OpenEntry(index, cats, i);
      index := AddCategory(index, cats[..i], cats[i]);
      CloseEntry(index, cats, i);
      i := i + 1;
    }
    assert cats[..i] == cats;
  }

  /** The inner loop: pushes the name of `cat` onto the entry of each of its tags, in list order. */
  method AddCategory(index0: map<string, seq<string>>, done: seq<Category>, cat: Category)
    returns (index: map<string, seq<string>>)
    requires PartialIndex(index0, done, cat.name, [])
    ensures PartialIndex(index, done, cat.name, cat.tags)
  {
    index := index0;
    var j := 0;
    while j < |cat.tags|
      invariant 0 <= j <= |cat.tags|
      invariant PartialIndex(index, done, cat.name, cat.tags[..j])
    {
      ghost var before := index;
      var tag := cat.tags[j];
      var entry := if tag in index then index[tag] else [];
      index := index[tag := entry + [cat.name]];
      PushKeepsPartial(before, index, done, cat.name, cat.tags, j);
      j := j + 1;
    }
    assert cat.tags[..j] == cat.tags;
  }

  /**
   * The state of the index in the middle of the inner loop: the entries of
   * the categories in `done`, plus `category` pushed once for each occurrence
   * of a tag in `seen`.
   */
  ghost predicate PartialIndex(index: map<string, seq<string>>, done: seq<Category>,
                               category: string, seen: seq<string>)
  {
    && index.Keys == AllTags(done) + Elements(seen)
    && forall t :: t in index ==> index[t] == CategoriesOf(done, t) + Repeat(category, Count(seen, t))
  }

  // ---------------------------------------------------------------------------
  // Helper facts
  // ---------------------------------------------------------------------------

  /** Entering the inner loop: nothing of the new entry has been pushed yet. */
  lemma OpenEntry(index: map<string, seq<string>>, cats: seq<Category>, i: nat)
    requires i < |cats| && index == TagIndex(cats[..i])
    ensures PartialIndex(index, cats[..i], cats[i].name, [])
  {
  }

  /** One iteration of the inner loop: pushing `tags[j]` extends exactly its own entry. */
  lemma PushKeepsPartial(before: map<string, seq<string>>, after: map<string, seq<string>>,
                         done: seq<Category>, category: string, tags: seq<string>, j: nat)
    requires j < |tags|
    requires PartialIndex(before, done, category, tags[..j])
    requires after == before[tags[j] := (if tags[j] in before then before[tags[j]] else []) + [category]]
    ensures PartialIndex(after, done, category, tags[..j + 1])
  {
    var seen := tags[..j + 1];
    assert seen == tags[..j] + [tags[j]];
    assert Elements(seen) == Elements(tags[..j]) + {tags[j]};
    forall t | t in after
      ensures after[t] == CategoriesOf(done, t) + Repeat(category, Count(seen, t))
    {
      PushOneKey(before, after, done, category, tags, j, t);
    }
  }

  /** The entry of one key after the push. */
  lemma PushOneKey(before: map<string, seq<string>>, after: map<string, seq<string>>,
                   done: seq<Category>, category: string, tags: seq<string>, j: nat, t: string)
    requires j < |tags|
    requires PartialIndex(before, done, category, tags[..j])
    requires after == before[tags[j] := (if tags[j] in before then before[tags[j]] else []) + [category]]
    requires t in after
    ensures after[t] == CategoriesOf(done, t) + Repeat(category, Count(tags[..j + 1], t))
  {
    var tag, seen := tags[j], tags[..j + 1];
    assert seen[..j] == tags[..j] && seen[j] == tag;
    if t == tag {
      if tag !in before {
        CategoriesOfAbsent(done, tag);
        CountAbsent(tags[..j], tag);
      }
      assert Count(seen, t) == Count(tags[..j], t) + 1;
    } else {
      assert Count(seen, t) == Count(tags[..j], t);
    }
  }

  /** Leaving the inner loop: the index now covers one more table entry. */
  lemma CloseEntry(index: map<string, seq<string>>, cats: seq<Category>, i: nat)
    requires i < |cats|
    requires PartialIndex(index, cats[..i], cats[i].name, cats[i].tags)
    ensures index == TagIndex(cats[..i + 1])
  {
    assert cats[..i + 1][..i] == cats[..i];
  }

  lemma {:induction false} CountAbsent(s: seq<string>, t: string)
    requires t !in s
    ensures Count(s, t) == 0
  {
    if s != [] {
      CountAbsent(s[..|s| - 1], t);
    }
  }

  lemma {:induction false} CountPositive(s: seq<string>, t: string)
    ensures t in s <==> Count(s, t) > 0
  {
    if s != [] {
      var init := s[..|s| - 1];
      CountPositive(init, t);
      assert s == init + [s[|s| - 1]];
    }
  }

  lemma {:induction false} CategoriesOfAbsent(cats: seq<Category>, t: string)
    requires t !in AllTags(cats)
    ensures CategoriesOf(cats, t) == []
  {
    if cats != [] {
      CategoriesOfAbsent(cats[..|cats| - 1], t);
      CountAbsent(cats[|cats| - 1].tags, t);
    }
  }

  // ---------------------------------------------------------------------------
  // Properties of the inverted index
  // ---------------------------------------------------------------------------

  /** A tag is in the union exactly when some category lists it. */
  lemma {:induction false} AllTagsMembership(cats: seq<Category>, t: string)
    ensures t in AllTags(cats) <==> exists i :: 0 <= i < |cats| && t in cats[i].tags
  {
    if cats != [] {
      var init := cats[..|cats| - 1];
      AllTagsMembership(init, t);
      if exists i :: 0 <= i < |init| && t in init[i].tags {
        var i :| 0 <= i < |init| && t in init[i].tags;
        assert cats[i] == init[i];
      }
      if exists i :: 0 <= i < |cats| && t in cats[i].tags {
        var i :| 0 <= i < |cats| && t in cats[i].tags;
        if i < |init| {
          assert init[i] == cats[i];
        }
      }
    }
  }

  /**
   * Both directions of the inversion: category `c` is in the entry of `t`
   * exactly when some entry of the table named `c` lists `t`.
   */
  lemma {:induction false} CategoriesOfMembership(cats: seq<Category>, t: string, c: string)
    ensures c in CategoriesOf(cats, t) <==>
            exists i :: 0 <= i < |cats| && cats[i].name == c && t in cats[i].tags
  {
    if cats != [] {
      var init, last := cats[..|cats| - 1], cats[|cats| - 1];
      CategoriesOfMembership(init, t, c);
      CountPositive(last.tags, t);
      if exists i :: 0 <= i < |init| && init[i].name == c && t in init[i].tags {
        var i :| 0 <= i < |init| && init[i].name == c && t in init[i].tags;
        assert cats[i] == init[i];
      }
      if exists i :: 0 <= i < |cats| && cats[i].name == c && t in cats[i].tags {
        var i :| 0 <= i < |cats| && cats[i].name == c && t in cats[i].tags;
        if i < |init| {
          assert init[i] == cats[i];
        } else {
          assert Repeat(last.name, Count(last.tags, t))[0] == c;
        }
      }
    }
  }

  /** Every listed tag has an entry, nothing else does, and no entry is empty. */
  lemma {:induction false} TagIndexEntries(cats: seq<Category>)
    ensures forall t :: t in TagIndex(cats) <==> exists i :: 0 <= i < |cats| && t in cats[i].tags
    ensures forall t :: t in TagIndex(cats) ==> |TagIndex(cats)[t]| > 0
  {
    forall t
      ensures t in TagIndex(cats) <==> exists i :: 0 <= i < |cats| && t in cats[i].tags
    {
      AllTagsMembership(cats, t);
    }
    forall t | t in TagIndex(cats)
      ensures |TagIndex(cats)[t]| > 0
    {
      AllTagsMembership(cats, t);
      var i :| 0 <= i < |cats| && t in cats[i].tags;
      CategoriesOfMembership(cats, t, cats[i].name);
    }
  }

  /** The entry of `t` has one element per occurrence of `t` across all tag lists. */
  lemma {:induction false} CategoriesOfLength(cats: seq<Category>, t: string)
    ensures |CategoriesOf(cats, t)| == multiset(Flatten(cats))[t]
  {
    if cats != [] {
      var init, last := cats[..|cats| - 1], cats[|cats| - 1];
      CategoriesOfLength(init, t);
      CountIsMultiplicity(last.tags, t);
    }
  }

  lemma {:induction false} CountIsMultiplicity(s: seq<string>, t: string)
    ensures Count(s, t) == multiset(s)[t]
  {
    if s != [] {
      var init := s[..|s| - 1];
      CountIsMultiplicity(init, t);
      assert s == init + [s[|s| - 1]];
    }
  }

  /**
   * Within an entry, the categories appear in table order: an earlier
   * position never names a later category of the table.
   */
  lemma {:induction false} CategoriesOfOrder(cats: seq<Category>, t: string)
    requires DistinctNames(cats)
    ensures forall p, q, i, j ::
              0 <= p < q < |CategoriesOf(cats, t)| && 0 <= i < |cats| && 0 <= j < |cats| &&
              CategoriesOf(cats, t)[p] == cats[i].name && CategoriesOf(cats, t)[q] == cats[j].name
              ==> i <= j
  {
    if cats != [] {
      var n := |cats|;
      var init, last := cats[..n - 1], cats[n - 1];
      var front, r := CategoriesOf(init, t), CategoriesOf(cats, t);
      CategoriesOfOrder(init, t);
      forall p, q, i, j |
        0 <= p < q < |r| && 0 <= i < n && 0 <= j < n &&
        r[p] == cats[i].name && r[q] == cats[j].name
        ensures i <= j
      {
        if j < n - 1 {
          // Position q lies in the part built from `init`, and so does p.
          assert q < |front|;
          assert r[p] == front[p] && r[q] == front[q];
          CategoriesOfMembership(init, t, r[p]);
          var i' :| 0 <= i' < n - 1 && init[i'].name == r[p] && t in init[i'].tags;
          assert init[i'] == cats[i'];
          assert i == i';
          assert init[i] == cats[i] && init[j] == cats[j];
        }
      }
    }
  }

  /** No tag is listed by two different entries of the table. */
  predicate PairwiseDisjoint(cats: seq<Category>) {
    forall i, j :: 0 <= i < j < |cats| ==> Disjoint(cats[i].tags, cats[j].tags)
  }

  lemma {:induction false} CountUnique(s: seq<string>, t: string)
    requires NoDuplicates(s) && t in s
    ensures Count(s, t) == 1
  {
    var init := s[..|s| - 1];
    if s[|s| - 1] == t {
      CountAbsent(init, t);
    } else {
      CountUnique(init, t);
    }
  }

  /** When each tag is listed exactly once, every index entry is a single category. */
  lemma {:induction false} SingleCategoryPerTag(cats: seq<Category>, t: string)
    requires forall i :: 0 <= i < |cats| ==> NoDuplicates(cats[i].tags)
    requires PairwiseDisjoint(cats)
    requires t in AllTags(cats)
    ensures |CategoriesOf(cats, t)| == 1
  {
    var init, last := cats[..|cats| - 1], cats[|cats| - 1];
    AllTagsMembership(init, t);
    if t in last.tags {
      CountUnique(last.tags, t);
      assert forall i :: 0 <= i < |init| ==> init[i] == cats[i];
      assert t !in AllTags(init);
      CategoriesOfAbsent(init, t);
    } else {
      CountAbsent(last.tags, t);
      assert forall i :: 0 <= i < |init| ==> init[i] == cats[i];
      SingleCategoryPerTag(init, t);
    }
  }

  // ---------------------------------------------------------------------------
  // The shipped table
  // ---------------------------------------------------------------------------

  lemma ShippedListsHaveNoDuplicates()
    ensures forall i :: 0 <= i < |Categories| ==> NoDuplicates(Categories[i].tags)
  {
    GamesTagsDistinct();
    AudioVisualTagsDistinct();
    ToolsTagsDistinct();
    ExperimentsTagsDistinct();
  }

  lemma GamesTagsDistinct() ensures NoDuplicates(GamesTags) {}
  lemma AudioVisualTagsDistinct() ensures NoDuplicates(AudioVisualTags) {}
  lemma ToolsTagsDistinct() ensures NoDuplicates(ToolsTags) {}
  lemma ExperimentsTagsDistinct() ensures NoDuplicates(ExperimentsTags) {}

  predicate Disjoint(a: seq<string>, b: seq<string>) {
    forall t :: t in a ==> t !in b
  }

  lemma ShippedListsAreDisjoint()
    ensures PairwiseDisjoint(Categories)
  {
    GamesAudioVisualDisjoint();
    GamesToolsDisjoint();
    GamesExperimentsDisjoint();
    AudioVisualToolsDisjoint();
    AudioVisualExperimentsDisjoint();
    ToolsExperimentsDisjoint();
  }

  lemma GamesAudioVisualDisjoint() ensures Disjoint(GamesTags, AudioVisualTags) {}
  lemma GamesToolsDisjoint() ensures Disjoint(GamesTags, ToolsTags) {}
  lemma GamesExperimentsDisjoint() ensures Disjoint(GamesTags, ExperimentsTags) {}
  lemma AudioVisualToolsDisjoint() ensures Disjoint(AudioVisualTags, ToolsTags) {
    DisjointSplit(AudioVisualTags, 6, ToolsTags);
    assert Disjoint(AudioVisualTags[..6], ToolsTags);
    assert Disjoint(AudioVisualTags[6..], ToolsTags);
  }
  lemma AudioVisualExperimentsDisjoint() ensures Disjoint(AudioVisualTags, ExperimentsTags) {
    DisjointSplit(AudioVisualTags, 6, ExperimentsTags);
    assert Disjoint(AudioVisualTags[..6], ExperimentsTags);
    assert Disjoint(AudioVisualTags[6..], ExperimentsTags);
  }

  /** Disjointness of a list follows from that of its two halves. */
  lemma DisjointSplit(a: seq<string>, k: nat, b: seq<string>)
    requires k <= |a|
    ensures Disjoint(a[..k], b) && Disjoint(a[k..], b) ==> Disjoint(a, b)
  {
    assert a == a[..k] + a[k..];
  }
  lemma ToolsExperimentsDisjoint() ensures Disjoint(ToolsTags, ExperimentsTags) {}

  /** For the shipped table every entry of TAG_TO_CATEGORIES holds exactly one category. */
  lemma ShippedIndexHasOneCategoryPerTag()
    ensures forall t :: t in TagIndex(Categories) ==> |TagIndex(Categories)[t]| == 1
  {
    ShippedListsHaveNoDuplicates();
    ShippedListsAreDisjoint();
    forall t | t in TagIndex(Categories)
      ensures |TagIndex(Categories)[t]| == 1
    {
      SingleCategoryPerTag(Categories, t);
    }
  }

  /**
   * CATEGORY_ICONS covers exactly the categories; CATEGORY_THEMES covers them
   * plus "default", with four classes per theme.
   */
  lemma CategoryTablesAgree()
    ensures CategoryIcons.Keys == Elements(Names(Categories))
    ensures CategoryThemes.Keys == Elements(Names(Categories)) + {"default"}
    ensures forall k :: k in CategoryThemes ==> |CategoryThemes[k]| == 4
    ensures DistinctNames(Categories)
  {
    ShippedNames();
    IconKeys();
    ThemeKeys();
    ShippedNamesDistinct();
  }

  lemma IconKeys()
    ensures CategoryIcons.Keys == {"Games", "Audio/Visual", "Tools", "Experiments"}
  {
  }

  lemma ThemeKeys()
    ensures CategoryThemes.Keys == {"Games", "Audio/Visual", "Tools", "Experiments", "default"}
  {
  }

  lemma ShippedNamesDistinct()
    ensures NoDuplicates(["Games", "Audio/Visual", "Tools", "Experiments"])
  {
  }

  /** The names of the shipped table, in order. */
  lemma ShippedNames()
    ensures Names(Categories) == ["Games", "Audio/Visual", "Tools", "Experiments"]
    ensures Elements(Names(Categories)) == {"Games", "Audio/Visual", "Tools", "Experiments"}
  {
    var names := Names(Categories);
    assert names == ["Games", "Audio/Visual", "Tools", "Experiments"];
    assert forall n :: n in {"Games", "Audio/Visual", "Tools", "Experiments"} ==> n in names;
  }
}
