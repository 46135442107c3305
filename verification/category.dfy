/**
 * The category hierarchy of `server/src/models/category.model.ts`: each
 * category stores a hierarchical `slug` that a pre-save hook derives from its
 * own name and its parent's slug, and a post-save hook re-saves every child.
 *
 * The collection is a sequence whose positions are the document ids, so that
 * `find({ parentCategory })` returns children in the collection's natural
 * order. `slugify` comes from a library and stays an uninterpreted function.
 */
module CategoryModel {
  import opened Wrappers
  import Js
  import Collections

  type CategoryId = nat

  datatype Category = Category(name: string, slug: string, parentCategory: Option<CategoryId>)

  /** The document paths Mongoose can report as modified to the pre-save hook. */
  datatype Path = NamePath | ParentPath | OtherPath

  type Store = seq<Category>

  /**
   * The slug rule of the data model: the parent's slug, a '/', then the
   * slugified name when the parent exists, and the slugified name alone otherwise.
   */
  ghost predicate SlugFollowsRule(store: Store, c: Category, slugify: string -> string) {
    if c.parentCategory.Some? && c.parentCategory.value < |store| then
      c.slug == store[c.parentCategory.value].slug + "/" + slugify(c.name)
    else
      c.slug == slugify(c.name)
  }

  /** The slug the pre-save hook writes when it fires. */
  function DerivedSlug(store: Store, doc: Category, slugify: string -> string): string {
    var selfSlug := slugify(doc.name);
    match doc.parentCategory
    case None => selfSlug
    case Some(p) =>
      match Collections.FindById(store, p)
      case Some(parent) => parent.slug + "/" + selfSlug
      case None => selfSlug
  }

  /** Whether the pre-save hook recomputes the slug: only when `name` or `parentCategory` was modified. */
  predicate SlugRecomputed(modified: set<Path>) {
    NamePath in modified || ParentPath in modified
  }

  /**
   * The pre-save hook: when the name or the parent changed, the slug is
   * re-derived from the parent found in the store; otherwise the document is
   * saved exactly as it is.
   */
  function PreSave(store: Store, doc: Category, modified: set<Path>, slugify: string -> string): (d: Category)
    ensures d.name == doc.name && d.parentCategory == doc.parentCategory
    ensures SlugRecomputed(modified) ==> SlugFollowsRule(store, d, slugify)
    ensures !SlugRecomputed(modified) ==> d == doc
  {
    if SlugRecomputed(modified) then doc.(slug := DerivedSlug(store, doc, slugify)) else doc
  }

  /** The three outcomes of the hook, as separate statements about the written slug. */
  lemma PreSaveCases(store: Store, doc: Category, modified: set<Path>, slugify: string -> string)
    requires SlugRecomputed(modified)
    ensures doc.parentCategory.None? ==> PreSave(store, doc, modified, slugify).slug == slugify(doc.name)
    ensures doc.parentCategory.Some? && doc.parentCategory.value < |store| ==>
      PreSave(store, doc, modified, slugify).slug == store[doc.parentCategory.value].slug + "/" + slugify(doc.name)
    ensures doc.parentCategory.Some? && doc.parentCategory.value >= |store| ==>
      PreSave(store, doc, modified, slugify).slug == slugify(doc.name)
  {
  }

  // ---------------------------------------------------------------------------
  // Acyclicity and children
  // ---------------------------------------------------------------------------

  /** The parent links of a store, the only part of it that acyclicity and subtrees depend on. */
  type Links = seq<Option<CategoryId>>

  function LinksOf(store: Store): (links: Links)
    ensures |links| == |store|
    ensures forall i :: 0 <= i < |store| ==> links[i] == store[i].parentCategory
  {
    seq(|store|, i requires 0 <= i < |store| => store[i].parentCategory)
  }

  /**
   * `height` witnesses that the parent links are acyclic: every category has a
   * height, and a parent present in the store sits strictly higher than its child.
   */
  ghost predicate Ranked(links: Links, height: map<CategoryId, nat>) {
    && (forall i :: 0 <= i < |links| ==> i in height)
    && (forall i :: 0 <= i < |links| && links[i].Some? && links[i].value < |links| ==>
          links[i].value in height && height[links[i].value] > height[i])
  }

  /** `c` is a direct child of `id` in `store`. */
  predicate IsChild(store: Store, id: CategoryId, c: int) {
    0 <= c < |store| && store[c].parentCategory == Some(id)
  }

  /** `find({ parentCategory: id })` over positions `from..`: the children in natural order, with their documents. */
  function ChildrenFrom(store: Store, id: CategoryId, from: nat): (kids: seq<(CategoryId, Category)>)
    requires from <= |store|
    ensures forall k :: 0 <= k < |kids| ==> from <= kids[k].0 && IsChild(store, id, kids[k].0) && kids[k].1 == store[kids[k].0]
    ensures forall c :: from <= c < |store| && IsChild(store, id, c) ==> (c, store[c]) in kids
    ensures forall k, l :: 0 <= k < l < |kids| ==> kids[k].0 < kids[l].0
    decreases |store| - from
  {
    if from == |store| then []
    else
      var rest := ChildrenFrom(store, id, from + 1);
      if store[from].parentCategory == Some(id) then [(from, store[from])] + rest else rest
  }

  function Children(store: Store, id: CategoryId): (kids: seq<(CategoryId, Category)>)
    ensures forall k :: 0 <= k < |kids| ==> IsChild(store, id, kids[k].0) && kids[k].1 == store[kids[k].0]
    ensures forall c :: IsChild(store, id, c) ==> (c, store[c]) in kids
    ensures forall k, l :: 0 <= k < l < |kids| ==> kids[k].0 < kids[l].0
  {
    ChildrenFrom(store, id, 0)
  }

  /** The ids of loaded children. */
  function Ids(kids: seq<(CategoryId, Category)>): (ids: seq<CategoryId>)
    ensures |ids| == |kids| && forall k :: 0 <= k < |kids| ==> ids[k] == kids[k].0
  {
    seq(|kids|, k requires 0 <= k < |kids| => kids[k].0)
  }

  // ---------------------------------------------------------------------------
  // The save cascade, as written
  // ---------------------------------------------------------------------------

  /**
   * `doc.save()` for the category at `id`: the pre-save hook runs against the
   * store as it is, the document is written, and the post-save hook loads the
   * children and saves each in turn. A freshly loaded child has no modified
   * path, so its own pre-save hook leaves its slug alone and the cascade
   * rewrites every descendant unchanged: saving changes the saved category only.
   */
  function Save(store: Store, id: CategoryId, doc: Category, modified: set<Path>,
                slugify: string -> string, ghost height: map<CategoryId, nat>): (r: Store)
    requires id < |store|
    requires Ranked(LinksOf(store[id := doc]), height)
    ensures r == store[id := PreSave(store, doc, modified, slugify)]
    decreases height[id], 1, 0
  {
    var saved := store[id := PreSave(store, doc, modified, slugify)];
    assert LinksOf(saved) == LinksOf(store[id := doc]);
    SaveChildren(saved, id, Children(saved, id), slugify, height)
  }

  /** The post-save loop `for (const child of children) await child.save()`. */
  function SaveChildren(store: Store, parent: CategoryId, kids: seq<(CategoryId, Category)>,
                        slugify: string -> string, ghost height: map<CategoryId, nat>): (r: Store)
    requires parent < |store|
    requires Ranked(LinksOf(store), height)
    requires forall k :: 0 <= k < |kids| ==> IsChild(store, parent, kids[k].0) && kids[k].1 == store[kids[k].0]
    ensures r == store
    decreases height[parent], 0, |kids|
  {
    if kids == [] then store
    else
      var c := kids[0].0;
      assert IsChild(store, parent, c) && kids[0].1 == store[c];
      assert store[c := kids[0].1] == store;
      var next := Save(store, c, kids[0].1, {}, slugify, height);
      assert next == store;
      SaveChildren(next, parent, kids[1..], slugify, height)
  }

  /** Every category other than the saved one, descendants included, keeps its slug. */
  lemma SaveLeavesOthersAlone(store: Store, id: CategoryId, doc: Category, modified: set<Path>,
                              slugify: string -> string, height: map<CategoryId, nat>, j: CategoryId)
    requires id < |store| && Ranked(LinksOf(store[id := doc]), height)
    requires j < |store| && j != id
    ensures Save(store, id, doc, modified, slugify, height)[j] == store[j]
  {
  }

  /** The slugify of the example in the hook's doc comment: lower-casing suffices for one-word names. */
  function ExampleSlugify(s: string): string {
    Js.ToLower(s)
  }

  /** The tree of the hook's doc comment: "Electronics" with the child "Laptops". */
  const ExampleStore: Store := [Category("Electronics", "electronics", None),
                                Category("Laptops", "electronics/laptops", Some(0))]

  /** "Electronics" renamed to "Tech". */
  const ExampleRename: Category := Category("Tech", "electronics", None)

  const ExampleHeight: map<CategoryId, nat> := map[0 := 1, 1 := 0]

  lemma ExampleFacts()
    ensures Ranked(LinksOf(ExampleStore[0 := ExampleRename]), ExampleHeight)
    ensures ExampleSlugify("Electronics") == "electronics"
    ensures ExampleSlugify("Tech") == "tech"
    ensures ExampleSlugify("Laptops") == "laptops"
  {
    assert LinksOf(ExampleStore[0 := ExampleRename]) == [None, Some(0)];
  }

  /**
   * The hook's doc comment promises that renaming "Electronics" to "Tech" turns
   * the child "electronics/laptops" into "tech/laptops". It does not: the child
   * keeps its old slug, which no longer follows the slug rule.
   */
  lemma RenameDoesNotReachChild()
    ensures
      var r := Save(ExampleStore, 0, ExampleRename, {NamePath}, ExampleSlugify, ExampleHeight);
      && r[0].slug == "tech"
      && r[1].slug == "electronics/laptops"
      && r[1].slug != "tech/laptops"
      && !SlugFollowsRule(r, r[1], ExampleSlugify)
  {
    ExampleFacts();
    var r := Save(ExampleStore, 0, ExampleRename, {NamePath}, ExampleSlugify, ExampleHeight);
    SaveLeavesOthersAlone(ExampleStore, 0, ExampleRename, {NamePath}, ExampleSlugify, ExampleHeight, 1);
    assert r[0].slug == "tech";
    assert r[1] == ExampleStore[1];
    assert "electronics/laptops"[0] != "tech/laptops"[0];
  }

  /** Every category follows the slug rule. */
  ghost predicate Consistent(store: Store, slugify: string -> string) {
    forall j :: 0 <= j < |store| ==> SlugFollowsRule(store, store[j], slugify)
  }

  /** The doc-comment example starts from a consistent tree and, saved as written, ends in an inconsistent one. */
  lemma SaveBreaksConsistency()
    ensures Consistent(ExampleStore, ExampleSlugify)
    ensures !Consistent(Save(ExampleStore, 0, ExampleRename, {NamePath}, ExampleSlugify, ExampleHeight), ExampleSlugify)
  {
    ExampleFacts();
    assert SlugFollowsRule(ExampleStore, ExampleStore[0], ExampleSlugify);
    assert SlugFollowsRule(ExampleStore, ExampleStore[1], ExampleSlugify);
    var r := Save(ExampleStore, 0, ExampleRename, {NamePath}, ExampleSlugify, ExampleHeight);
    RenameDoesNotReachChild();
    assert !SlugFollowsRule(r, r[1], ExampleSlugify);
  }

  // ---------------------------------------------------------------------------
  // Subtrees
  // ---------------------------------------------------------------------------

  /** `j` lies in the subtree rooted at `a`: it is `a` or its chain of parents reaches `a`. */
  ghost predicate InSubtree(links: Links, height: map<CategoryId, nat>, a: CategoryId, j: CategoryId)
    requires Ranked(links, height) && a < |links| && j < |links|
    decreases height[a] as int - height[j] as int
  {
    || j == a
    || (&& links[j].Some? && links[j].value < |links| && height[j] < height[a]
        && InSubtree(links, height, a, links[j].value))
  }

  /** `j` lies in the subtree of one of the categories `ids`. */
  ghost predicate InSubtrees(links: Links, height: map<CategoryId, nat>, ids: seq<CategoryId>, j: CategoryId)
    requires Ranked(links, height) && j < |links|
    requires forall k :: 0 <= k < |ids| ==> ids[k] < |links|
  {
    && |ids| > 0
    && (InSubtree(links, height, ids[0], j) || InSubtrees(links, height, ids[1..], j))
  }

  /** A subtree sits no higher than its root. */
  lemma SubtreeBelowRoot(links: Links, height: map<CategoryId, nat>, a: CategoryId, j: CategoryId)
    requires Ranked(links, height) && a < |links| && j < |links|
    ensures InSubtree(links, height, a, j) ==> height[j] <= height[a]
    ensures InSubtree(links, height, a, j) && j != a ==> height[j] < height[a]
  {
  }

  /** Nothing sits in the subtree of a category lower than itself. */
  lemma {:induction false} NotInLowerSubtrees(links: Links, height: map<CategoryId, nat>, ids: seq<CategoryId>, j: CategoryId)
    requires Ranked(links, height) && j < |links|
    requires forall i :: 0 <= i < |ids| ==> ids[i] < |links| && height[ids[i]] < height[j]
    ensures !InSubtrees(links, height, ids, j)
    decreases |ids|
  {
    if |ids| > 0 {
      SubtreeBelowRoot(links, height, ids[0], j);
      NotInLowerSubtrees(links, height, ids[1..], j);
    }
  }

  /** The subtree of a child lies inside the subtree of its parent. */
  lemma {:induction false} ChildSubtreeInParent(links: Links, height: map<CategoryId, nat>, a: CategoryId, c: CategoryId, j: CategoryId)
    requires Ranked(links, height) && a < |links| && c < |links| && j < |links|
    requires links[c] == Some(a)
    ensures InSubtree(links, height, c, j) ==> InSubtree(links, height, a, j)
    decreases height[c] as int - height[j] as int
  {
    if j != c && links[j].Some? && links[j].value < |links| && height[j] < height[c] {
      var p := links[j].value;
      ChildSubtreeInParent(links, height, a, c, p);
      SubtreeBelowRoot(links, height, c, j);
    }
  }

  /** A proper descendant of `a` lies in the subtree of one of `a`'s children. */
  lemma {:induction false} DescendantUnderChild(links: Links, height: map<CategoryId, nat>, a: CategoryId, j: CategoryId)
    returns (c: CategoryId)
    requires Ranked(links, height) && a < |links| && j < |links|
    requires InSubtree(links, height, a, j) && j != a
    ensures c < |links| && links[c] == Some(a) && InSubtree(links, height, c, j)
    decreases height[a] as int - height[j] as int
  {
    var p := links[j].value;
    if p == a {
      c := j;
    } else {
      c := DescendantUnderChild(links, height, a, p);
      SubtreeBelowRoot(links, height, c, p);
    }
  }

  /** The subtrees of two distinct children of one parent do not overlap. */
  lemma {:induction false} SiblingSubtreesDisjoint(links: Links, height: map<CategoryId, nat>, a: CategoryId,
                                                    c1: CategoryId, c2: CategoryId, j: CategoryId)
    requires Ranked(links, height) && a < |links| && c1 < |links| && c2 < |links| && j < |links|
    requires links[c1] == Some(a) && links[c2] == Some(a) && c1 != c2
    ensures !(InSubtree(links, height, c1, j) && InSubtree(links, height, c2, j))
    decreases height[c1] as int - height[j] as int
  {
    SubtreeBelowRoot(links, height, c2, a);
    SubtreeBelowRoot(links, height, c1, a);
    if j != c1 && j != c2 && links[j].Some? && links[j].value < |links| && height[j] < height[c1] {
      SiblingSubtreesDisjoint(links, height, a, c1, c2, links[j].value);
    }
  }

  /** A member of `ids` carries its whole subtree into `InSubtrees`. */
  lemma {:induction false} MemberSubtree(links: Links, height: map<CategoryId, nat>, ids: seq<CategoryId>,
                                         k: nat, j: CategoryId)
    requires Ranked(links, height) && j < |links|
    requires forall i :: 0 <= i < |ids| ==> ids[i] < |links|
    requires k < |ids| && InSubtree(links, height, ids[k], j)
    ensures InSubtrees(links, height, ids, j)
    decreases k
  {
    if k > 0 {
      MemberSubtree(links, height, ids[1..], k - 1, j);
    }
  }

  /** Something in the subtree of some child of `a` is in the subtree of `a`. */
  lemma {:induction false} SubtreesInParent(links: Links, height: map<CategoryId, nat>, a: CategoryId,
                                            ids: seq<CategoryId>, j: CategoryId)
    requires Ranked(links, height) && a < |links| && j < |links|
    requires forall i :: 0 <= i < |ids| ==> ids[i] < |links| && links[ids[i]] == Some(a)
    ensures InSubtrees(links, height, ids, j) ==> InSubtree(links, height, a, j)
    decreases |ids|
  {
    if |ids| > 0 {
      ChildSubtreeInParent(links, height, a, ids[0], j);
      SubtreesInParent(links, height, a, ids[1..], j);
    }
  }

  /** Something in the subtree of child `c` is in no subtree of `c`'s distinct siblings. */
  lemma {:induction false} NotInSiblingSubtrees(links: Links, height: map<CategoryId, nat>, a: CategoryId, c: CategoryId,
                                                ids: seq<CategoryId>, j: CategoryId)
    requires Ranked(links, height) && a < |links| && c < |links| && j < |links|
    requires links[c] == Some(a) && InSubtree(links, height, c, j)
    requires forall i :: 0 <= i < |ids| ==> ids[i] < |links| && links[ids[i]] == Some(a) && ids[i] != c
    ensures !InSubtrees(links, height, ids, j)
    decreases |ids|
  {
    if |ids| > 0 {
      SiblingSubtreesDisjoint(links, height, a, c, ids[0], j);
      NotInSiblingSubtrees(links, height, a, c, ids[1..], j);
    }
  }

  // ---------------------------------------------------------------------------
  // The save cascade the doc comment describes
  // ---------------------------------------------------------------------------

  /** Two stores whose documents agree on everything but their slugs. */
  predicate SameShape(a: Store, b: Store) {
    |a| == |b| && forall i :: 0 <= i < |a| ==> a[i].name == b[i].name && a[i].parentCategory == b[i].parentCategory
  }

  /**
   * The cascade with each loaded child marked as having a modified parent
   * (`child.markModified('parentCategory')` before `child.save()`), so that
   * the child's pre-save hook re-derives its slug from the freshly saved parent.
   */
  function SaveRecomputing(store: Store, id: CategoryId, doc: Category, modified: set<Path>,
                           slugify: string -> string, ghost height: map<CategoryId, nat>): (r: Store)
    requires id < |store|
    requires Ranked(LinksOf(store[id := doc]), height)
    ensures SameShape(r, store[id := doc])
    decreases height[id], 1, 0
  {
    var saved := store[id := PreSave(store, doc, modified, slugify)];
    assert LinksOf(saved) == LinksOf(store[id := doc]);
    ResaveRecomputing(saved, id, Children(saved, id), slugify, height)
  }

  /** `kids` are children of `parent`, each with a document shaped like the stored one. */
  predicate ChildDocs(store: Store, parent: CategoryId, kids: seq<(CategoryId, Category)>) {
    forall k :: 0 <= k < |kids| ==>
      (&& IsChild(store, parent, kids[k].0)
       && kids[k].1.name == store[kids[k].0].name
       && kids[k].1.parentCategory == store[kids[k].0].parentCategory)
  }

  lemma ChildDocsTail(a: Store, b: Store, parent: CategoryId, kids: seq<(CategoryId, Category)>)
    requires |kids| > 0 && ChildDocs(a, parent, kids) && SameShape(a, b)
    ensures ChildDocs(b, parent, kids[1..])
  {
    forall k | 0 <= k < |kids| - 1
      ensures IsChild(b, parent, kids[1..][k].0)
    {
      assert kids[1..][k] == kids[k + 1];
      assert IsChild(a, parent, kids[k + 1].0);
    }
  }

  function ResaveRecomputing(store: Store, parent: CategoryId, kids: seq<(CategoryId, Category)>,
                             slugify: string -> string, ghost height: map<CategoryId, nat>): (r: Store)
    requires parent < |store|
    requires Ranked(LinksOf(store), height)
    requires ChildDocs(store, parent, kids)
    ensures SameShape(r, store)
    decreases height[parent], 0, |kids|
  {
    if kids == [] then store
    else
      var c := kids[0].0;
      assert IsChild(store, parent, c);
      assert LinksOf(store[c := kids[0].1]) == LinksOf(store);
      var next := SaveRecomputing(store, c, kids[0].1, {ParentPath}, slugify, height);
      assert LinksOf(next) == LinksOf(store);
      ChildDocsTail(store, next, parent, kids);
      ResaveRecomputing(next, parent, kids[1..], slugify, height)
  }

  /**
   * Saving with the recomputing cascade rewrites exactly the subtree of the
   * saved category, and leaves every category of that subtree following the
   * slug rule (the saved one itself when its name or parent was modified).
   */
  lemma {:induction false} SaveRecomputingFixesSubtree(store: Store, id: CategoryId, doc: Category, modified: set<Path>,
                                                       slugify: string -> string, height: map<CategoryId, nat>)
    requires id < |store|
    requires Ranked(LinksOf(store[id := doc]), height)
    ensures var r := SaveRecomputing(store, id, doc, modified, slugify, height);
      && (forall j :: 0 <= j < |store| && !InSubtree(LinksOf(store[id := doc]), height, id, j) ==> r[j] == store[j])
      && (forall j :: (0 <= j < |store| && InSubtree(LinksOf(store[id := doc]), height, id, j)
                       && (j != id || SlugRecomputed(modified))) ==> SlugFollowsRule(r, r[j], slugify))
    decreases height[id], 2, 0
  {
    var links := LinksOf(store[id := doc]);
    var saved := store[id := PreSave(store, doc, modified, slugify)];
    assert LinksOf(saved) == links;
    var kids := Children(saved, id);
    var r := ResaveRecomputing(saved, id, kids, slugify, height);
    assert r == SaveRecomputing(store, id, doc, modified, slugify, height);
    ResaveRecomputingFixesSubtrees(saved, id, kids, slugify, height);
    forall j | 0 <= j < |store|
      ensures !InSubtree(links, height, id, j) ==> r[j] == store[j]
      ensures InSubtree(links, height, id, j) && j != id ==> SlugFollowsRule(r, r[j], slugify)
    {
      SubtreeIsChildSubtrees(saved, height, id, j);
    }
    if SlugRecomputed(modified) {
      SavedRootFollowsRule(store, id, doc, modified, slugify, height);
    }
  }

  /** The subtree of `a` is `a` itself and the subtrees of the children `find` returns. */
  lemma SubtreeIsChildSubtrees(store: Store, height: map<CategoryId, nat>, a: CategoryId, j: CategoryId)
    requires Ranked(LinksOf(store), height) && a < |store| && j < |store|
    ensures InSubtree(LinksOf(store), height, a, j) <==> (j == a || InSubtrees(LinksOf(store), height, Ids(Children(store, a)), j))
  {
    var links := LinksOf(store);
    var kids := Children(store, a);
    SubtreesInParent(links, height, a, Ids(kids), j);
    if InSubtree(links, height, a, j) && j != a {
      var c := DescendantUnderChild(links, height, a, j);
      assert (c, store[c]) in kids;
      var k :| 0 <= k < |kids| && kids[k] == (c, store[c]);
      MemberSubtree(links, height, Ids(kids), k, j);
    }
  }

  /** The saved category itself, with its slug recomputed, follows the rule after the cascade below it. */
  lemma {:induction false} SavedRootFollowsRule(store: Store, id: CategoryId, doc: Category, modified: set<Path>,
                                                slugify: string -> string, height: map<CategoryId, nat>)
    requires id < |store|
    requires Ranked(LinksOf(store[id := doc]), height)
    requires SlugRecomputed(modified)
    ensures var r := SaveRecomputing(store, id, doc, modified, slugify, height);
      SlugFollowsRule(r, r[id], slugify)
    decreases height[id], 1, 0
  {
    var links := LinksOf(store[id := doc]);
    var saved := store[id := PreSave(store, doc, modified, slugify)];
    assert LinksOf(saved) == links;
    var kids := Children(saved, id);
    var r := ResaveRecomputing(saved, id, kids, slugify, height);
    assert r == SaveRecomputing(store, id, doc, modified, slugify, height);
    ResaveRecomputingFixesSubtrees(saved, id, kids, slugify, height);
    NotInLowerSubtrees(links, height, Ids(kids), id);
    assert r[id] == saved[id];
    var p := doc.parentCategory;
    if p.Some? && p.value < |store| {
      NotInLowerSubtrees(links, height, Ids(kids), p.value);
      assert r[p.value] == saved[p.value] == store[p.value];
    }
    RuleUnderSameParent(r, store, saved[id], slugify);
  }

  lemma {:induction false} ResaveRecomputingFixesSubtrees(store: Store, parent: CategoryId, kids: seq<(CategoryId, Category)>,
                                                          slugify: string -> string, height: map<CategoryId, nat>)
    requires parent < |store|
    requires Ranked(LinksOf(store), height)
    requires ChildDocs(store, parent, kids)
    requires forall k, l :: 0 <= k < l < |kids| ==> kids[k].0 != kids[l].0
    ensures var r := ResaveRecomputing(store, parent, kids, slugify, height);
      && (forall j :: 0 <= j < |store| && !InSubtrees(LinksOf(store), height, Ids(kids), j) ==> r[j] == store[j])
      && (forall j :: 0 <= j < |store| && InSubtrees(LinksOf(store), height, Ids(kids), j) ==> SlugFollowsRule(r, r[j], slugify))
    decreases height[parent], 0, |kids|
  {
    if kids != [] {
      var links := LinksOf(store);
      var c := kids[0].0;
      var doc := kids[0].1;
      assert IsChild(store, parent, c);
      assert LinksOf(store[c := doc]) == links;
      var next := SaveRecomputing(store, c, doc, {ParentPath}, slugify, height);
      assert LinksOf(next) == links;
      SaveRecomputingFixesSubtree(store, c, doc, {ParentPath}, slugify, height);
      var rest := kids[1..];
      ChildDocsTail(store, next, parent, kids);
      ResaveRecomputingFixesSubtrees(next, parent, rest, slugify, height);
      var r := ResaveRecomputing(next, parent, rest, slugify, height);
      assert r == ResaveRecomputing(store, parent, kids, slugify, height);
      assert Ids(kids)[1..] == Ids(rest);
      forall i | 0 <= i < |rest|
        ensures Ids(rest)[i] < |links| && links[Ids(rest)[i]] == Some(parent) && Ids(rest)[i] != c
      {
        assert rest[i] == kids[i + 1];
        assert IsChild(store, parent, kids[i + 1].0);
      }
      FirstSubtreeSurvives(links, height, parent, c, Ids(rest), next, r, slugify);
    }
  }

  /** Re-saving the later siblings leaves the first sibling's subtree following the rule. */
  lemma FirstSubtreeSurvives(links: Links, height: map<CategoryId, nat>, parent: CategoryId, c: CategoryId,
                             rest: seq<CategoryId>, next: Store, r: Store, slugify: string -> string)
    requires Ranked(links, height) && parent < |links| && c < |links| && links[c] == Some(parent)
    requires |r| == |links| && LinksOf(next) == links
    requires forall i :: 0 <= i < |rest| ==> rest[i] < |links| && links[rest[i]] == Some(parent) && rest[i] != c
    requires forall j :: 0 <= j < |links| && InSubtree(links, height, c, j) ==> SlugFollowsRule(next, next[j], slugify)
    requires forall j :: 0 <= j < |links| && !InSubtrees(links, height, rest, j) ==> r[j] == next[j]
    ensures forall j :: 0 <= j < |links| && InSubtree(links, height, c, j) ==> SlugFollowsRule(r, r[j], slugify)
  {
    forall j | 0 <= j < |links| && InSubtree(links, height, c, j)
      ensures SlugFollowsRule(r, r[j], slugify)
    {
      NotInSiblingSubtrees(links, height, parent, c, rest, j);
      var q := links[j].value;
      if j == c {
        NotInLowerSubtrees(links, height, rest, parent);
      } else {
        NotInSiblingSubtrees(links, height, parent, c, rest, q);
      }
      assert links[j].Some? && q < |links| ==> r[q] == next[q];
      RuleUnderSameParent(r, next, next[j], slugify);
    }
  }

  /** Whether a document follows the slug rule depends on its parent's slug only. */
  lemma RuleUnderSameParent(a: Store, b: Store, c: Category, slugify: string -> string)
    requires |a| == |b|
    requires c.parentCategory.Some? && c.parentCategory.value < |a| ==>
      a[c.parentCategory.value].slug == b[c.parentCategory.value].slug
    ensures SlugFollowsRule(a, c, slugify) <==> SlugFollowsRule(b, c, slugify)
  {
  }

  /**
   * The property the doc comment promises, for the recomputing cascade: a
   * consistent tree stays consistent after a category is renamed or re-parented.
   */
  lemma SaveRecomputingKeepsConsistency(store: Store, id: CategoryId, doc: Category, modified: set<Path>,
                                        slugify: string -> string, height: map<CategoryId, nat>)
    requires id < |store|
    requires Ranked(LinksOf(store[id := doc]), height)
    requires Consistent(store, slugify) && SlugRecomputed(modified)
    ensures Consistent(SaveRecomputing(store, id, doc, modified, slugify, height), slugify)
  {
    var links := LinksOf(store[id := doc]);
    var r := SaveRecomputing(store, id, doc, modified, slugify, height);
    SaveRecomputingFixesSubtree(store, id, doc, modified, slugify, height);
    forall j | 0 <= j < |r|
      ensures SlugFollowsRule(r, r[j], slugify)
    {
      if !InSubtree(links, height, id, j) {
        assert SlugFollowsRule(store, store[j], slugify);
        var p := store[j].parentCategory;
        if p.Some? && p.value < |store| {
          assert links[j] == p;
          assert !InSubtree(links, height, id, p.value);
          assert r[p.value] == store[p.value];
        }
      }
    }
  }

  /** With the recomputing cascade the doc-comment example comes out as promised. */
  lemma RenameReachesChildWhenRecomputing()
    ensures
      var r := SaveRecomputing(ExampleStore, 0, ExampleRename, {NamePath}, ExampleSlugify, ExampleHeight);
      r[0].slug == "tech" && r[1].slug == "tech/laptops"
  {
    ExampleFacts();
    var links := LinksOf(ExampleStore[0 := ExampleRename]);
    var r := SaveRecomputing(ExampleStore, 0, ExampleRename, {NamePath}, ExampleSlugify, ExampleHeight);
    SaveRecomputingFixesSubtree(ExampleStore, 0, ExampleRename, {NamePath}, ExampleSlugify, ExampleHeight);
    assert links[1] == Some(0);
    assert InSubtree(links, ExampleHeight, 0, 0);
    assert InSubtree(links, ExampleHeight, 0, 1);
    assert SlugRecomputed({NamePath});
    assert SameShape(r, ExampleStore[0 := ExampleRename]);
  }
}
