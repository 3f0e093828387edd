/**
 * The template gallery of the resume builder (src/components/ResumeBuilder.tsx):
 * the sixteen templates, the three featured ones, and the filter by category
 * and by a case-insensitive search text that decides which cards appear and
 * what the count caption says.
 */
module Gallery {
  import opened Text
  import opened Lists

  datatype Template = Template(id: nat, name: string, category: string, description: string, color: string)

  /** The template table, in display order. */
  function Templates(): (r: seq<Template>)
    ensures |r| == 16
    ensures forall i :: 0 <= i < |r| ==> r[i] == TemplateNumbered(i + 1) && r[i].id == i + 1
  {
    seq(16, i requires 0 <= i < 16 => TemplateNumbered(i + 1))
  }

  /** The entry of the table with the given id. */
  function TemplateNumbered(id: nat): (t: Template)
    requires 1 <= id <= 16
    ensures t.id == id
  {
    match id
    case 1 => Template(1, "Creative Resume Template", "Design",
      "A resume template as creative as your imagination", "from-teal-600 to-blue-700")
    case 2 => Template(2, "Professional Resume Template", "General",
      "Put your best foot forward with a professional resume template", "from-blue-500 to-blue-600")
    case 3 => Template(3, "College Resume Template", "Education",
      "No experience? No problem!", "from-blue-400 to-blue-500")
    case 4 => Template(4, "Executive Resume Template", "Leadership",
      "For senior professionals and executives", "from-purple-600 to-indigo-700")
    case 5 => Template(5, "Minimalist Resume Template", "Design",
      "Clean, simple, and elegant design", "from-gray-500 to-gray-600")
    case 6 => Template(6, "Tech Resume Template", "Technology",
      "Perfect for software developers and IT professionals", "from-green-500 to-emerald-600")
    case 7 => Template(7, "Creative Portfolio Template", "Design",
      "Showcase your creative work and skills", "from-pink-500 to-rose-600")
    case 8 => Template(8, "Academic Resume Template", "Education",
      "For researchers, professors, and academics", "from-orange-500 to-amber-600")
    case 9 => Template(9, "Sales Resume Template", "Business",
      "Highlight your sales achievements and metrics", "from-red-500 to-pink-600")
    case 10 => Template(10, "Healthcare Resume Template", "Healthcare",
      "Professional template for healthcare professionals", "from-cyan-500 to-blue-600")
    case 11 => Template(11, "Finance Resume Template", "Finance",
      "For financial analysts, accountants, and bankers", "from-emerald-500 to-teal-600")
    case 12 => Template(12, "Marketing Resume Template", "Marketing",
      "Showcase your marketing campaigns and results", "from-violet-500 to-purple-600")
    case 13 => Template(13, "Legal Resume Template", "Legal",
      "Professional template for lawyers and legal professionals", "from-slate-600 to-gray-700")
    case 14 => Template(14, "Engineering Resume Template", "Engineering",
      "Perfect for engineers and technical professionals", "from-blue-600 to-indigo-700")
    case 15 => Template(15, "Consulting Resume Template", "Consulting",
      "For consultants and strategy professionals", "from-amber-500 to-orange-600")
    case _ => Template(16, "Non-Profit Resume Template", "Non-Profit",
      "Highlight your community service and impact", "from-green-600 to-emerald-700")
  }

  /** `templates.slice(0, 3)`: the featured templates. */
  function Featured(): (r: seq<Template>)
    ensures |r| == 3 && forall i :: 0 <= i < 3 ==> r[i] == Templates()[i] && r[i].id == i + 1
  {
    Templates()[..3]
  }

  // ---------------------------------------------------------------- the filter

  /** The category test: "All" or exactly the template's category. */
  predicate InCategory(category: string, t: Template) {
    category == "All" || t.category == category
  }

  /** The search test: an empty search, or the lower-cased search text inside the
      lower-cased name, description or category. */
  predicate MatchesSearch(search: string, t: Template) {
    var q := ToLower(search);
    search == "" || Contains(ToLower(t.name), q) || Contains(ToLower(t.description), q)
    || Contains(ToLower(t.category), q)
  }

  predicate Shown(category: string, search: string, t: Template) {
    InCategory(category, t) && MatchesSearch(search, t)
  }

  function ShownBy(category: string, search: string): Template -> bool {
    (t: Template) => Shown(category, search, t)
  }

  /** `templates.filter(...)`: the templates the grid shows, in table order. */
  function FilteredTemplates(category: string, search: string): (r: seq<Template>)
    ensures IsSubsequence(r, Templates())
    ensures forall t :: t in r <==> t in Templates() && Shown(category, search, t)
  {
    FilterIsSubsequence(Templates(), ShownBy(category, search));
    Filter(Templates(), ShownBy(category, search))
  }

  /** With the category "All" and an empty search (also what "Clear Filters" sets)
      every template is shown, in table order. */
  lemma ClearedFiltersShowAll()
    ensures FilteredTemplates("All", "") == Templates()
  {
    var ts := Templates();
    forall i | 0 <= i < |ts| ensures ShownBy("All", "")(ts[i]) {
      assert Shown("All", "", ts[i]);
    }
    FilterKeepsAll(ts, ShownBy("All", ""));
  }

  /** A category other than "All" keeps exactly the templates of that category. */
  lemma CategoryFilter(category: string, t: Template)
    requires category != "All"
    ensures t in FilteredTemplates(category, "") <==> t in Templates() && t.category == category
  {
  }

  /** The `search === ""` test is redundant: the empty string occurs in every text. */
  lemma EmptySearchTestRedundant(search: string, t: Template)
    ensures MatchesSearch(search, t)
        <==> (Contains(ToLower(t.name), ToLower(search)) || Contains(ToLower(t.description), ToLower(search))
              || Contains(ToLower(t.category), ToLower(search)))
  {
    if search == "" {
      assert ToLower(search) == "";
      assert OccursAt("", ToLower(t.name), 0);
    }
  }

  lemma LowerOfUpper(s: string)
    ensures ToLower(ToUpper(s)) == ToLower(s)
  {
  }

  /** The search ignores the case of the search text. */
  lemma SearchIgnoresCase(search: string, t: Template)
    ensures MatchesSearch(ToUpper(search), t) == MatchesSearch(search, t)
    ensures MatchesSearch(ToLower(search), t) == MatchesSearch(search, t)
  {
    LowerOfUpper(search);
    LowerOfLower(search);
  }

  lemma LowerOfLower(s: string)
    ensures ToLower(ToLower(s)) == ToLower(s)
  {
  }

  /** What the grid shows. */
  datatype GridView = NothingFound | Cards(shown: seq<Template>)

  /** The grid: "No templates found matching your criteria" with a "Clear Filters"
      button when the filter keeps nothing, the cards otherwise. */
  function Grid(category: string, search: string): GridView {
    var shown := FilteredTemplates(category, search);
    if |shown| == 0 then NothingFound else Cards(shown)
  }

  function CardCount(g: GridView): nat {
    match g
    case NothingFound => 0
    case Cards(shown) => |shown|
  }

  /** `${filteredCount} of ${templates.length} templates`. */
  function CountCaption(count: nat, total: nat): string {
    NatToString(count) + OutOf(total)
  }

  /** The part of the caption after the count. */
  function OutOf(total: nat): string {
    " of " + NatToString(total) + " templates"
  }

  /** The caption above the grid; it evaluates its own copy of the filter. */
  function Caption(category: string, search: string): string {
    CountCaption(|FilteredTemplates(category, search)|, |Templates()|)
  }

  /** The caption counts exactly the cards the grid shows, out of sixteen. */
  lemma CaptionMatchesGrid(category: string, search: string)
    ensures Caption(category, search) == CountCaption(CardCount(Grid(category, search)), 16)
    ensures CardCount(Grid(category, search)) <= 16
  {
  }

  /** Two captions are equal only when they count the same number of cards. */
  lemma {:induction false} CountCaptionInjective(a: nat, b: nat, total: nat)
    requires CountCaption(a, total) == CountCaption(b, total)
    ensures a == b
  {
    CancelSuffix(NatToString(a), NatToString(b), OutOf(total));
    NatToStringInjective(a, b);
  }

  lemma CancelSuffix(x: string, y: string, rest: string)
    requires x + rest == y + rest
    ensures x == y
  {
    assert |x| == |y|;
    assert x == (x + rest)[..|x|];
  }
}
