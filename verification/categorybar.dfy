/**
 * The category links and the "More" dropdown of
 * `client/src/components/ui/CategoryBar.tsx`.
 */
module CategoryBar {
  import opened Wrappers
  import opened Js

  const Prefix := "/category/"

  const Categories: seq<string> := ["Electronics", "Fashion", "Home & Kitchen", "Books", "Sports"]
  const MoreOptions: seq<string> := ["Toys & Games", "Automotive", "Beauty", "Pet Supplies", "Health", "Office Products"]

  /** The slug of a main category: lower-cased, each " & " and then each remaining space made a hyphen. */
  function MainSlug(name: string): (slug: string)
    ensures ' ' !in slug
  {
    ReplaceAllRemovesChar(ReplaceAll(ToLower(name), " & ", "-"), ' ', "-");
    ReplaceAll(ReplaceAll(ToLower(name), " & ", "-"), " ", "-")
  }

  /** The slug of a "More" entry: lower-cased, spaces made hyphens; an '&' stays. */
  function MoreSlug(name: string): (slug: string)
    ensures ' ' !in slug
  {
    ReplaceAllRemovesChar(ToLower(name), ' ', "-");
    ReplaceAll(ToLower(name), " ", "-")
  }

  function MainLink(name: string): string {
    Prefix + MainSlug(name)
  }

  function MoreLink(name: string): string {
    Prefix + MoreSlug(name)
  }

  /** For names without an '&' the two rules agree: only the ampersand tells them apart. */
  lemma RulesAgreeWithoutAmpersand(name: string)
    requires '&' !in name
    ensures MainSlug(name) == MoreSlug(name)
  {
    var low := ToLower(name);
    forall i
      ensures !OccursAt(low, " & ", i)
    {
      if 0 <= i && i + 3 <= |low| {
        assert low[i..i + 3][1] == low[i + 1] == LowerChar(name[i + 1]);
        assert name[i + 1] != '&';
      }
    }
    ReplaceAllAbsent(low, " & ", "-");
  }

  /** A word without spaces is left alone by either rule's replacements. */
  lemma WordKept(w: string, pat: string)
    requires pat != "" && pat[0] == ' ' && ' ' !in w
    ensures ReplaceAll(w, pat, "-") == w
  {
    ReplaceAllPlainPrefix(w, [], pat, "-");
    assert w + [] == w;
  }

  /** The main rule on "<a> & <b>" for single words: "<a>-<b>". */
  lemma MainSlugOfPair(a: string, b: string)
    requires ' ' !in a && ' ' !in b && '&' !in a
    ensures ReplaceAll(ReplaceAll(a + " & " + b, " & ", "-"), " ", "-") == a + "-" + b
  {
    WordKept(b, " & ");
    ReplaceAllHit(b, " & ", "-");
    ReplaceAllPlainPrefix(a, " & " + b, " & ", "-");
    assert a + " & " + b == a + (" & " + b);
    assert ReplaceAll(a + " & " + b, " & ", "-") == a + ("-" + b);
    WordKept(a + ("-" + b), " ");
    assert a + ("-" + b) == a + "-" + b;
  }

  /** A one-character pattern on both sides of another character is replaced on both sides. */
  lemma ReplaceAround(pat: string, c: char, rep: string, b: string)
    requires |pat| == 1 && pat[0] != c && pat[0] !in b
    ensures ReplaceAll(pat + [c] + pat + b, pat, rep) == rep + [c] + rep + b
  {
    ReplaceAllPlainPrefix(b, [], pat, rep);
    assert b + [] == b;
    ReplaceAllHit(b, pat, rep);
    ReplaceAllPlainPrefix([c], pat + b, pat, rep);
    ReplaceAllHit([c] + pat + b, pat, rep);
    assert pat + ([c] + pat + b) == pat + [c] + pat + b;
    assert rep + ([c] + (rep + b)) == rep + [c] + rep + b;
  }

  /** The "More" rule on " & <b>" for a single word: "-&-<b>". */
  lemma MoreTail(b: string)
    requires ' ' !in b
    ensures ReplaceAll(" & " + b, " ", "-") == "-&-" + b
  {
    ReplaceAround(" ", '&', "-", b);
    assert " " + ['&'] + " " + b == " & " + b;
    assert "-" + ['&'] + "-" + b == "-&-" + b;
  }

  /** The "More" rule on "<a> & <b>" for single words: "<a>-&-<b>". */
  lemma MoreSlugOfPair(a: string, b: string)
    requires ' ' !in a && ' ' !in b
    ensures ReplaceAll(a + " & " + b, " ", "-") == a + "-&-" + b
  {
    var tail := " & " + b;
    MoreTail(b);
    ReplaceAllPlainPrefix(a, tail, " ", "-");
    assert a + " & " + b == a + tail;
    assert a + ("-&-" + b) == a + "-&-" + b;
  }

  /** Lower-casing, checked one character at a time. */
  lemma LowerCased(name: string, low: string)
    requires |name| == |low| && forall k :: 0 <= k < |name| ==> LowerChar(name[k]) == low[k]
    ensures ToLower(name) == low
  {
  }

  /** "Home & Kitchen" links to "/category/home-kitchen". */
  lemma HomeAndKitchen(name: string)
    requires name == "Home & Kitchen"
    ensures MainLink(name) == "/category/home-kitchen"
  {
    LowerCased(name, "home" + " & " + "kitchen");
    MainSlugOfPair("home", "kitchen");
  }

  /** "Toys & Games" in the dropdown links to "/category/toys-&-games": the '&' survives. */
  lemma ToysAndGames(name: string)
    requires name == "Toys & Games"
    ensures MoreLink(name) == "/category/toys-&-games"
  {
    LowerCased(name, "toys" + " & " + "games");
    MoreSlugOfPair("toys", "games");
  }

  /** `activeDropdown`: which dropdown the pointer is over. */
  datatype Pointer = Enter | Leave

  function Hover(active: Option<string>, e: Pointer): (r: Option<string>)
    ensures e == Enter ==> r == Some("more")
    ensures e == Leave ==> r.None?
  {
    match e
    case Enter => Some("more")
    case Leave => None
  }

  /** The dropdown is open exactly when `activeDropdown === "more"`. */
  predicate DropdownOpen(active: Option<string>) {
    active == Some("more")
  }

  /** After any non-empty sequence of pointer events the dropdown is open exactly when the last one entered. */
  lemma {:induction false} OpenIffLastEntered(active: Option<string>, events: seq<Pointer>)
    requires events != []
    ensures DropdownOpen(Replay(active, events)) <==> events[|events| - 1] == Enter
    decreases |events|
  {
    if |events| > 1 {
      OpenIffLastEntered(Hover(active, events[0]), events[1..]);
    }
  }

  function Replay(active: Option<string>, events: seq<Pointer>): Option<string>
    decreases |events|
  {
    if events == [] then active else Replay(Hover(active, events[0]), events[1..])
  }
}
