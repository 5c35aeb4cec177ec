/**
  * The settings page (src/app/settings/page.tsx): the habit suggestions of a category,
  * the choice of category templates, the frequency of a new habit and the filter that
  * hides suggestions already turned into habits.
  */
module Settings {
  import opened Wrappers
  import opened JsText
  import opened Seqs
  import Logs
  import Stats

  /** A category template: its name, icon and type. */
  datatype CategoryTemplate = CategoryTemplate(name: string, icon: string, categoryType: string)

  /** The fields of a category the page reads here; habits by name. */
  datatype SettingsCategory = SettingsCategory(id: string, name: string, categoryType: string, habitNames: seq<string>)

  // ----- Habit templates, by category -----

  const MorningHabits: seq<string> :=
    ["\U{1F6CF}\U{FE0F} Faire son lit",
     "\U{1F9D8} M\U{E9}ditation / \U{C9}tirements",
     "\U{1F4A7} Boire un verre d'eau",
     "\U{1F373} Petit-d\U{E9}jeuner sain",
     "\U{1F4D6} Lecture 10 min",
     "\U{1F4DD} Journaling",
     "\U{1F6BF} Douche froide",
     "\U{2600}\U{FE0F} Exposition lumi\U{E8}re naturelle",
     "\U{1F4F5} Pas de t\U{E9}l\U{E9}phone 30 min",
     "\U{1F3AF} D\U{E9}finir les 3 priorit\U{E9}s du jour"]

  const DayHabits: seq<string> :=
    ["\U{1F4A7} Boire 2L d'eau",
     "\U{1F6B6} 10 000 pas",
     "\U{1F957} Repas \U{E9}quilibr\U{E9}",
     "\U{23F0} Pomodoro (4 sessions)",
     "\U{1F9D8} Pause respiration",
     "\U{1F4F5} Digital detox 1h",
     "\U{2600}\U{FE0F} Sortir prendre l'air",
     "\U{2705} T\U{E2}che importante compl\U{E9}t\U{E9}e",
     "\U{1F4DA} Apprendre quelque chose",
     "\U{1F91D} Interaction sociale positive"]

  const EveningHabits: seq<string> :=
    ["\U{1F4F5} Pas d'\U{E9}cran 1h avant dodo",
     "\U{1F4D6} Lecture 20 min",
     "\U{1F9D8} M\U{E9}ditation / Relaxation",
     "\U{1F4DD} Gratitude (3 choses)",
     "\U{1F3AF} Bilan de la journ\U{E9}e",
     "\U{1F455} Pr\U{E9}parer affaires du lendemain",
     "\U{1F9B7} Routine dentaire",
     "\U{1F6CF}\U{FE0F} Couch\U{E9} avant 23h",
     "\U{1F319} 8h de sommeil",
     "\U{1F4CB} To-do list du lendemain"]

  const WeeklyHabits: seq<string> :=
    ["\U{1F3CB}\U{FE0F} Sport (3x/semaine)",
     "\U{1F9F9} M\U{E9}nage",
     "\U{1F6D2} Courses",
     "\U{1F4DE} Appeler famille/amis",
     "\U{1F4CA} Review hebdo",
     "\U{1F3A8} Hobby cr\U{E9}atif",
     "\U{1F333} Sortie nature",
     "\U{1F4DA} Finir un chapitre/article",
     "\U{1F4B0} Check finances",
     "\U{1F9FA} Lessive"]

  const AddictionHabits: seq<string> :=
    ["\U{1F6AC} Pas de cigarette",
     "\U{1F37A} Pas d'alcool",
     "\U{1F36C} Pas de sucre ajout\U{E9}",
     "\U{1F4F1} Pas de r\U{E9}seaux sociaux",
     "\U{1F3AE} Pas de jeux vid\U{E9}o",
     "\U{2615} Max 2 caf\U{E9}s",
     "\U{1F35F} Pas de fast-food",
     "\U{1F4FA} Pas de Netflix/streaming",
     "\U{1F6D2} Pas d'achats impulsifs",
     "\U{1F624} Pas de procrastination"]

  /**
    * getHabitSuggestions: the first keyword the lower-cased name includes, in the order
    * matin, journée or journee, soir, hebdo, addiction, picks the list; failing that the
    * type hebdo or addiction does; failing that the day list. Always one of the five lists.
    */
  function GetHabitSuggestions(categoryName: string, categoryType: string): (r: seq<string>)
    ensures r == MorningHabits || r == DayHabits || r == EveningHabits || r == WeeklyHabits || r == AddictionHabits
  {
    var nameLower := ToLower(categoryName);
    if Includes(nameLower, "matin") then MorningHabits
    else if Includes(nameLower, "journ\U{E9}e") || Includes(nameLower, "journee") then DayHabits
    else if Includes(nameLower, "soir") then EveningHabits
    else if Includes(nameLower, "hebdo") then WeeklyHabits
    else if Includes(nameLower, "addiction") then AddictionHabits
    else if categoryType == "hebdo" then WeeklyHabits
    else if categoryType == "addiction" then AddictionHabits
    else DayHabits
  }

  /** A string without the first character of sub does not include sub. */
  lemma NotIncludedWithoutFirst(s: string, sub: string)
    requires sub != [] && sub[0] !in s
    ensures !Includes(s, sub)
  {
    forall i | 0 <= i <= |s| - |sub|
      ensures !OccursAt(s, sub, i)
    {
      assert s[i] in s;
      assert s[i..i + |sub|][0] == s[i];
    }
  }

  /** A string includes itself. */
  lemma IncludesItself(s: string)
    ensures Includes(s, s)
  {
    assert OccursAt(s, s, 0);
  }

  /** The names of the category templates, lower-cased. */
  lemma TemplateNamesLowered()
    ensures ToLower("MATIN") == "matin" && ToLower("SOIR") == "soir" && ToLower("HEBDO") == "hebdo"
    ensures ToLower("ADDICTION") == "addiction" && ToLower("JOURN\U{C9}E") == "journ\U{E9}e"
  {}

  /** The category template MATIN is offered the morning habits. */
  lemma MorningTemplateSuggestions()
    ensures GetHabitSuggestions("MATIN", "quotidien") == MorningHabits
  {
    TemplateNamesLowered();
    IncludesItself("matin");
  }

  /** The category template JOURNÉE is offered the day habits. */
  lemma DayTemplateSuggestions()
    ensures GetHabitSuggestions("JOURN\U{C9}E", "quotidien") == DayHabits
  {
    TemplateNamesLowered();
    IncludesItself("journ\U{E9}e");
    NotIncludedWithoutFirst("journ\U{E9}e", "matin");
  }

  /** The category template SOIR is offered the evening habits. */
  lemma EveningTemplateSuggestions()
    ensures GetHabitSuggestions("SOIR", "quotidien") == EveningHabits
  {
    TemplateNamesLowered();
    IncludesItself("soir");
    NotIncludedWithoutFirst("soir", "matin");
    NotIncludedWithoutFirst("soir", "journ\U{E9}e");
    NotIncludedWithoutFirst("soir", "journee");
  }

  /** The category template HEBDO is offered the weekly habits. */
  lemma WeeklyTemplateSuggestions()
    ensures GetHabitSuggestions("HEBDO", "hebdo") == WeeklyHabits
  {
    TemplateNamesLowered();
    IncludesItself("hebdo");
    NotIncludedWithoutFirst("hebdo", "matin");
    NotIncludedWithoutFirst("hebdo", "journ\U{E9}e");
    NotIncludedWithoutFirst("hebdo", "journee");
    NotIncludedWithoutFirst("hebdo", "soir");
  }

  /** The category template ADDICTION is offered the habits to quit. */
  lemma AddictionTemplateSuggestions()
    ensures GetHabitSuggestions("ADDICTION", "addiction") == AddictionHabits
  {
    TemplateNamesLowered();
    IncludesItself("addiction");
    NotIncludedWithoutFirst("addiction", "matin");
    NotIncludedWithoutFirst("addiction", "journ\U{E9}e");
    NotIncludedWithoutFirst("addiction", "journee");
    NotIncludedWithoutFirst("addiction", "soir");
    NotIncludedWithoutFirst("addiction", "hebdo");
  }

  // ----- Category templates -----

  /** `CATEGORY_TEMPLATES[type]`, nothing for an unknown type. */
  function TemplatesFor(templateType: string): (r: seq<CategoryTemplate>)
    ensures forall t :: t in r ==> t.categoryType == templateType
  {
    if templateType == "quotidien" then
      [CategoryTemplate("MATIN", "\U{2600}\U{FE0F}", "quotidien"),
       CategoryTemplate("JOURN\U{C9}E", "\U{1F535}", "quotidien"),
       CategoryTemplate("SOIR", "\U{1F319}", "quotidien")]
    else if templateType == "hebdo" then [CategoryTemplate("HEBDO", "\U{1F4C5}", "hebdo")]
    else if templateType == "addiction" then [CategoryTemplate("ADDICTION", "\U{1F6AB}", "addiction")]
    else []
  }

  /** The categories to create for the selected types: their templates, in selection order. */
  function TemplatesOf(selected: seq<string>): seq<CategoryTemplate> {
    FlatMap(selected, TemplatesFor)
  }

  /** createFromTemplates: `forEach` type, push its templates. */
  method CollectTemplates(selected: seq<string>) returns (categoriesToCreate: seq<CategoryTemplate>)
    ensures categoriesToCreate == TemplatesOf(selected)
  {
    categoriesToCreate := [];
    var i := 0;
    while i < |selected|
      invariant 0 <= i <= |selected|
      invariant categoriesToCreate == FlatMap(selected[..i], TemplatesFor)
    {
      assert selected[..i + 1][..i] == selected[..i];
      categoriesToCreate := categoriesToCreate + TemplatesFor(selected[i]);
      i := i + 1;
    }
    assert selected[..i] == selected;
  }

  /** Selecting more types appends their templates after those already collected. */
  lemma TemplatesOfAppend(a: seq<string>, b: seq<string>)
    ensures TemplatesOf(a + b) == TemplatesOf(a) + TemplatesOf(b)
  {
    FlatMapAppend(a, b, TemplatesFor);
  }

  /** Every collected template comes from a selected type; unknown types bring nothing. */
  lemma TemplatesOfSelected(selected: seq<string>)
    ensures forall t :: t in TemplatesOf(selected) ==> t.categoryType in selected
    ensures (forall k :: 0 <= k < |selected| ==> selected[k] !in ["quotidien", "hebdo", "addiction"]) ==> TemplatesOf(selected) == []
  {
    forall t | t in TemplatesOf(selected)
      ensures t.categoryType in selected
    {
      var k := FlatMapSource(selected, TemplatesFor, t);
      assert t in TemplatesFor(selected[k]);
    }
    if forall k :: 0 <= k < |selected| ==> selected[k] !in ["quotidien", "hebdo", "addiction"] {
      FlatMapEmpty(selected, TemplatesFor);
    }
  }

  /** toggleTemplate: remove every occurrence of the type when it is selected, append it otherwise. */
  function ToggleTemplate(prev: seq<string>, templateType: string): seq<string> {
    if templateType in prev then Filter(prev, Other(templateType)) else prev + [templateType]
  }

  /** Keeps the entries different from x. */
  function Other(x: string): string -> bool {
    (y: string) => y != x
  }

  /** Toggling flips the membership of the type and no other. */
  lemma ToggleMembership(prev: seq<string>, templateType: string, x: string)
    ensures x in ToggleTemplate(prev, templateType) <==> if x == templateType then x !in prev else x in prev
  {
    if templateType in prev && x != templateType && x in prev {
      FilterComplete(prev, Other(templateType), x);
    }
  }

  /** Toggling twice restores what is selected, and restores the list itself when the type was not in it. */
  lemma ToggleTwice(prev: seq<string>, templateType: string, x: string)
    ensures x in ToggleTemplate(ToggleTemplate(prev, templateType), templateType) <==> x in prev
    ensures templateType !in prev ==> ToggleTemplate(ToggleTemplate(prev, templateType), templateType) == prev
  {
    ToggleMembership(prev, templateType, x);
    ToggleMembership(ToggleTemplate(prev, templateType), templateType, x);
    ToggleMembership(prev, templateType, templateType);
    if templateType !in prev {
      FilterAppend(prev, [templateType], Other(templateType));
      FilterAll(prev, Other(templateType));
      assert Filter([templateType], Other(templateType)) == [];
    }
  }

  // ----- Frequency of a new habit -----

  /** `categories.find(c => c.id === categoryId)` */
  function FindCategory(categories: seq<SettingsCategory>, categoryId: string): (r: Option<SettingsCategory>)
    ensures r.Some? ==> r.value in categories && r.value.id == categoryId
    ensures r.None? ==> forall c :: c in categories ==> c.id != categoryId
  {
    if categories == [] then None
    else if categories[0].id == categoryId then Some(categories[0])
    else FindCategory(categories[1..], categoryId)
  }

  /** addHabit: "weekly" when the category is of type hebdo, "daily" otherwise (also when it is not found). */
  function FrequencyFor(categories: seq<SettingsCategory>, categoryId: string): string {
    var category := FindCategory(categories, categoryId);
    if category.Some? && category.value.categoryType == "hebdo" then "weekly" else "daily"
  }

  /**
    * The statistics count a new habit per week exactly when it was added to a category
    * of type hebdo, and per day otherwise.
    */
  lemma NewHabitCountedWeeklyIff(categories: seq<SettingsCategory>, categoryId: string, habitId: string, name: string)
    ensures var found := FindCategory(categories, categoryId);
      (!Stats.IsDaily(Logs.Habit(habitId, name, FrequencyFor(categories, categoryId))))
      <==> (found.Some? && found.value.categoryType == "hebdo")
    ensures (forall c :: c in categories ==> c.id != categoryId)
      ==> Stats.IsDaily(Logs.Habit(habitId, name, FrequencyFor(categories, categoryId)))
  {}

  // ----- Hiding suggestions already added -----

  /** The position of the first white space at or after position i, or |s|. */
  function FirstSpaceFrom(s: string, i: nat): (j: nat)
    requires i <= |s|
    ensures i <= j <= |s| && (j < |s| ==> IsSpace(s[j]))
    ensures forall k :: i <= k < j ==> !IsSpace(s[k])
    decreases |s| - i
  {
    if i == |s| || IsSpace(s[i]) then i else FirstSpaceFrom(s, i + 1)
  }

  /**
    * `suggestion.replace(/^[^\s]+\s/, '')`: a leading run of non-space characters and the
    * white space after it removed; the text unchanged when it starts with white space or
    * holds none.
    */
  function StripLeadingToken(s: string): (r: string)
    ensures var j := FirstSpaceFrom(s, 0);
      if 0 < j < |s| then r == s[j + 1..] else r == s
    ensures |r| <= |s| && r == s[|s| - |r|..]
  {
    if s == [] || IsSpace(s[0]) then s
    else
      var j := FirstSpaceFrom(s, 1);
      if j < |s| then s[j + 1..] else s
  }

  /** `habitName.slice(0, 10)`: the first ten characters. */
  function FirstTenChars(s: string): (r: string)
    ensures r <= s && |r| == if |s| <= 10 then |s| else 10
  {
    if |s| <= 10 then s else s[..10]
  }

  /** What the filter looks for: the first ten characters of the lower-cased text after the emoji. */
  function SuggestionKey(suggestion: string): string {
    FirstTenChars(ToLower(StripLeadingToken(suggestion)))
  }

  /** A suggestion is hidden when some habit's lower-cased name includes its key. */
  predicate Hidden(suggestion: string, habitNames: seq<string>) {
    exists h :: h in habitNames && Includes(ToLower(h), SuggestionKey(suggestion))
  }

  function NotHidden(habitNames: seq<string>): string -> bool {
    (s: string) => !Hidden(s, habitNames)
  }

  /** The suggestions shown for a category. */
  function VisibleSuggestions(category: SettingsCategory): seq<string> {
    Filter(GetHabitSuggestions(category.name, category.categoryType), NotHidden(category.habitNames))
  }

  /** A suggestion is shown exactly when it is one of the category's and no habit name includes its key. */
  lemma VisibleIff(category: SettingsCategory, s: string)
    ensures s in VisibleSuggestions(category)
      <==> s in GetHabitSuggestions(category.name, category.categoryType) && !Hidden(s, category.habitNames)
  {
    if s in GetHabitSuggestions(category.name, category.categoryType) && !Hidden(s, category.habitNames) {
      FilterComplete(GetHabitSuggestions(category.name, category.categoryType), NotHidden(category.habitNames), s);
    }
  }

  /** A category without habits shows all its suggestions. */
  lemma EmptyCategoryShowsAll(category: SettingsCategory)
    requires category.habitNames == []
    ensures VisibleSuggestions(category) == GetHabitSuggestions(category.name, category.categoryType)
  {
    FilterAll(GetHabitSuggestions(category.name, category.categoryType), NotHidden(category.habitNames));
  }

  /** A suggestion taken as a habit name, unchanged, is hidden from then on. */
  lemma AddedSuggestionHidden(suggestion: string, habitNames: seq<string>)
    requires suggestion in habitNames
    ensures Hidden(suggestion, habitNames)
  {
    var rest := StripLeadingToken(suggestion);
    var head := suggestion[..|suggestion| - |rest|];
    assert suggestion == head + rest;
    ToLowerAppend(head, rest);
    assert ToLower(suggestion) == ToLower(head) + ToLower(rest) + [];
    IncludesPiece(ToLower(head), ToLower(rest), [], SuggestionKey(suggestion));
  }
}
