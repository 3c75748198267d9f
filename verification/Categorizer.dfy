/**
  From the sections of a schema file to the category of a kernel name: the rule
  collection of categorize.py and the two-stage lookup of summary.py, against a
  flat evaluator that knows neither trees nor reversed strings.
 */
module Categorizer {
  import opened Prelude
  import opened SchemaRules
  import opened SearchTree

  // ------------------------------------------------------------------
  // Rule collection
  // ------------------------------------------------------------------

  /** One line of a section: an option name and, when the line contains ':=', its value. */
  datatype Entry = Entry(key: string, value: Option<string>)

  /** A section header already split into category and verb (spaces removed). */
  datatype Section = Section(isDefault: bool, category: string, verb: string, entries: seq<Entry>)

  function RemoveSpaces(s: string): string {
    if s == "" then ""
    else RemoveSpaces(s[..|s| - 1]) + (if s[|s| - 1] == ' ' || s[|s| - 1] == '\t' then "" else [s[|s| - 1]])
  }

  function TagOf(entry: Entry, removeSpaces: bool): string {
    var tag := if entry.value == None then entry.key else entry.key + ":=" + entry.value.value;
    if removeSpaces then RemoveSpaces(tag) else tag
  }

  function Reverse(s: string): string {
    seq(|s|, i requires 0 <= i < |s| => s[|s| - 1 - i])
  }

  function ReverseTags(rules: seq<Rule>): seq<Rule> {
    seq(|rules|, i requires 0 <= i < |rules| => rules[i].(tag := Reverse(rules[i].tag)))
  }

  function SectionRules(section: Section, removeSpaces: bool): seq<Rule> {
    seq(|section.entries|, i requires 0 <= i < |section.entries| =>
      Rule(TagOf(section.entries[i], removeSpaces), section.category, section.verb == "equalsto"))
  }

  /** What the last section contributes. */
  function LastRules(sections: seq<Section>, endings: bool, removeSpaces: bool): seq<Rule>
    requires sections != []
  {
    var last := sections[|sections| - 1];
    if !last.isDefault && (last.verb == "endswith") == endings then SectionRules(last, removeSpaces) else []
  }

  /** The rules of the "equals to" and "starts with" sections (or, with `endings`, "ends with"), in file order. */
  function RulesOf(sections: seq<Section>, endings: bool, removeSpaces: bool): seq<Rule> {
    if sections == [] then []
    else RulesOf(sections[..|sections| - 1], endings, removeSpaces) + LastRules(sections, endings, removeSpaces)
  }

  lemma RulesOfSnoc(sections: seq<Section>, i: nat, endings: bool, removeSpaces: bool)
    requires i < |sections|
    ensures RulesOf(sections[..i + 1], endings, removeSpaces) ==
            RulesOf(sections[..i], endings, removeSpaces) +
            if !sections[i].isDefault && (sections[i].verb == "endswith") == endings
            then SectionRules(sections[i], removeSpaces) else []
  {
    assert sections[..i + 1][..i] == sections[..i];
  }

  lemma ReverseTagsConcat(a: seq<Rule>, b: seq<Rule>)
    ensures ReverseTags(a + b) == ReverseTags(a) + ReverseTags(b)
  {}

  /** The loop over one "ends with" section. */
  method AppendReversed(section: Section, removeSpaces: bool, before: seq<Rule>) returns (reverseSearch: seq<Rule>)
    requires section.verb == "endswith"
    ensures reverseSearch == before + ReverseTags(SectionRules(section, removeSpaces))
  {
    reverseSearch := before;
    ghost var reversed := ReverseTags(SectionRules(section, removeSpaces));
    for j := 0 to |section.entries|
      invariant reverseSearch == before + reversed[..j]
    {
      var tag := TagOf(section.entries[j], removeSpaces);
      reverseSearch := reverseSearch + [Rule(Reverse(tag), section.category, false)];
    }
  }

  /** The loop over one "equals to" or "starts with" section. */
  method AppendDirect(section: Section, removeSpaces: bool, before: seq<Rule>) returns (directSearch: seq<Rule>)
    ensures directSearch == before + SectionRules(section, removeSpaces)
  {
    directSearch := before;
    var isExact := section.verb == "equalsto";
    for j := 0 to |section.entries|
      invariant directSearch == before + SectionRules(section, removeSpaces)[..j]
    {
      var tag := TagOf(section.entries[j], removeSpaces);
      directSearch := directSearch + [Rule(tag, section.category, isExact)];
    }
  }

  method CollectRules(sections: seq<Section>, removeSpaces: bool)
    returns (directSearch: seq<Rule>, reverseSearch: seq<Rule>)
    ensures directSearch == RulesOf(sections, false, removeSpaces)
    ensures reverseSearch == ReverseTags(RulesOf(sections, true, removeSpaces))
  {
    directSearch, reverseSearch := [], [];
    for i := 0 to |sections|
      invariant directSearch == RulesOf(sections[..i], false, removeSpaces)
      invariant reverseSearch == ReverseTags(RulesOf(sections[..i], true, removeSpaces))
    {
      RulesOfSnoc(sections, i, false, removeSpaces);
      RulesOfSnoc(sections, i, true, removeSpaces);
      if !sections[i].isDefault {
        if sections[i].verb == "endswith" {
          ReverseTagsConcat(RulesOf(sections[..i], true, removeSpaces), SectionRules(sections[i], removeSpaces));
          reverseSearch := AppendReversed(sections[i], removeSpaces, reverseSearch);
        } else {
          directSearch := AppendDirect(sections[i], removeSpaces, directSearch);
        }
      }
    }
    assert sections[..|sections|] == sections;
  }

  // ------------------------------------------------------------------
  // What the sections say about a tag
  // ------------------------------------------------------------------

  /** Removing spaces works character by character, ... */
  lemma {:induction false} RemoveSpacesConcat(a: string, b: string)
    ensures RemoveSpaces(a + b) == RemoveSpaces(a) + RemoveSpaces(b)
  {
    if b == "" {
      assert a + b == a;
    } else {
      assert (a + b)[..|a + b| - 1] == a + b[..|b| - 1];
      RemoveSpacesConcat(a, b[..|b| - 1]);
    }
  }

  /** ... and takes away exactly blanks and tabs. */
  lemma RemoveSpacesOne(c: char)
    ensures RemoveSpaces([c]) == if c == ' ' || c == '\t' then "" else [c]
  {
    assert RemoveSpaces([c][..0]) == "";
  }

  /** Entry j of section i is a rule for the tag, of the "ends with" kind or not; the default section has no rules. */
  ghost predicate EntryFor(sections: seq<Section>, endings: bool, removeSpaces: bool, i: nat, j: nat, tag: string) {
    && i < |sections| && j < |sections[i].entries| && !sections[i].isDefault
    && (sections[i].verb == "endswith" <==> endings)
    && var Entry(key, value) := sections[i].entries[j];
       var written := if value == None then key else key + ":=" + value.value;
       tag == if removeSpaces then RemoveSpaces(written) else written
  }

  /** It is the last such entry of the file. */
  ghost predicate LastEntryFor(sections: seq<Section>, endings: bool, removeSpaces: bool, i: nat, j: nat, tag: string) {
    && EntryFor(sections, endings, removeSpaces, i, j, tag)
    && forall k: nat, l: nat :: EntryFor(sections, endings, removeSpaces, k, l, tag) ==> k < i || (k == i && l <= j)
  }

  lemma {:induction false} EffectiveConcat(a: seq<Rule>, b: seq<Rule>, tag: string)
    ensures Effective(a + b, tag) == if Effective(b, tag).Some? then Effective(b, tag) else Effective(a, tag)
  {
    if b == [] {
      assert a + b == a;
    } else {
      assert (a + b)[..|a + b| - 1] == a + b[..|b| - 1];
      EffectiveConcat(a, b[..|b| - 1], tag);
    }
  }

  lemma {:induction false} LastWithTag(rules: seq<Rule>, tag: string) returns (k: nat)
    requires Effective(rules, tag).Some?
    ensures k < |rules| && rules[k].tag == tag && forall l :: k < l < |rules| ==> rules[l].tag != tag
    ensures Effective(rules, tag) == Some(Verdict(rules[k].category, rules[k].exact))
  {
    var last := |rules| - 1;
    if rules[last].tag == tag {
      k := last;
    } else {
      k := LastWithTag(rules[..last], tag);
    }
  }

  lemma NoneWithTag(rules: seq<Rule>, tag: string, k: nat)
    requires Effective(rules, tag) == None && k < |rules|
    ensures rules[k].tag != tag
  {
    EffectiveIsMembership(rules, tag);
    assert rules[k] in rules;
  }

  /** The verdict on a tag: that of its last entry, or none when there is no entry. */
  ghost predicate InForce(sections: seq<Section>, endings: bool, removeSpaces: bool, tag: string,
                          own: Option<Verdict>)
  {
    match own
    case None => forall i: nat, j: nat :: !EntryFor(sections, endings, removeSpaces, i, j, tag)
    case Some(verdict) =>
      exists i: nat, j: nat :: LastEntryFor(sections, endings, removeSpaces, i, j, tag)
                               && verdict == Verdict(sections[i].category, sections[i].verb == "equalsto")
  }

  lemma LastSectionDecides(sections: seq<Section>, endings: bool, removeSpaces: bool, tag: string, n: nat)
    requires n + 1 == |sections| && Effective(LastRules(sections, endings, removeSpaces), tag).Some?
    ensures InForce(sections, endings, removeSpaces, tag, Effective(LastRules(sections, endings, removeSpaces), tag))
  {
    var rules := SectionRules(sections[n], removeSpaces);
    var j := LastWithTag(rules, tag);
    assert EntryFor(sections, endings, removeSpaces, n, j, tag);
    forall k: nat, l: nat | EntryFor(sections, endings, removeSpaces, k, l, tag) ensures k < n || (k == n && l <= j) {
      if k == n {
        assert rules[l].tag == tag;
      }
    }
    assert LastEntryFor(sections, endings, removeSpaces, n, j, tag);
  }

  lemma LastSectionSilent(sections: seq<Section>, endings: bool, removeSpaces: bool, tag: string, n: nat)
    requires n + 1 == |sections| && Effective(LastRules(sections, endings, removeSpaces), tag) == None
    ensures forall l: nat :: !EntryFor(sections, endings, removeSpaces, n, l, tag)
  {
    forall l: nat ensures !EntryFor(sections, endings, removeSpaces, n, l, tag) {
      if EntryFor(sections, endings, removeSpaces, n, l, tag) {
        NoneWithTag(SectionRules(sections[n], removeSpaces), tag, l);
      }
    }
  }

  lemma InForceBefore(sections: seq<Section>, endings: bool, removeSpaces: bool, tag: string, n: nat,
                      own: Option<Verdict>)
    requires n + 1 == |sections| && InForce(sections[..n], endings, removeSpaces, tag, own)
    requires forall l: nat :: !EntryFor(sections, endings, removeSpaces, n, l, tag)
    ensures InForce(sections, endings, removeSpaces, tag, own)
  {
    var init := sections[..n];
    forall k: nat, l: nat
      ensures EntryFor(sections, endings, removeSpaces, k, l, tag)
              <==> EntryFor(init, endings, removeSpaces, k, l, tag)
    {
      assert k < n ==> sections[k] == init[k];
    }
    if own.Some? {
      var k: nat, l: nat :| LastEntryFor(init, endings, removeSpaces, k, l, tag)
        && own.value == Verdict(init[k].category, init[k].verb == "equalsto");
      assert LastEntryFor(sections, endings, removeSpaces, k, l, tag);
    }
  }

  /** The rule in force for a tag is that of its last entry: its section's category, exact in an "equals to" section. */
  lemma {:induction false} RuleInForce(sections: seq<Section>, endings: bool, removeSpaces: bool, tag: string)
    ensures InForce(sections, endings, removeSpaces, tag, Effective(RulesOf(sections, endings, removeSpaces), tag))
  {
    if sections == [] {
    } else {
      var n := |sections| - 1;
      var rules := LastRules(sections, endings, removeSpaces);
      EffectiveConcat(RulesOf(sections[..n], endings, removeSpaces), rules, tag);
      if Effective(rules, tag).Some? {
        LastSectionDecides(sections, endings, removeSpaces, tag, n);
      } else {
        RuleInForce(sections[..n], endings, removeSpaces, tag);
        LastSectionSilent(sections, endings, removeSpaces, tag, n);
        InForceBefore(sections, endings, removeSpaces, tag, n,
                      Effective(RulesOf(sections[..n], endings, removeSpaces), tag));
      }
    }
  }

  /** A tag is exact if and only if its last entry outside the "ends with" sections is in an "equals to" section. */
  lemma ExactTagIff(sections: seq<Section>, removeSpaces: bool, tag: string)
    ensures IsExactTag(RulesOf(sections, false, removeSpaces), tag) <==>
            exists i: nat, j: nat :: LastEntryFor(sections, false, removeSpaces, i, j, tag)
                                     && sections[i].verb == "equalsto"
  {
    RuleInForce(sections, false, removeSpaces, tag);
    if i: nat, j: nat :| LastEntryFor(sections, false, removeSpaces, i, j, tag) && sections[i].verb == "equalsto" {
      assert Effective(RulesOf(sections, false, removeSpaces), tag).Some?;
      var k: nat, l: nat :| LastEntryFor(sections, false, removeSpaces, k, l, tag)
        && Effective(RulesOf(sections, false, removeSpaces), tag).value
           == Verdict(sections[k].category, sections[k].verb == "equalsto");
      assert k == i;
    }
  }

  /** Section i is of the kind and has an entry. */
  ghost predicate IsSource(sections: seq<Section>, endings: bool, i: int) {
    && 0 <= i < |sections| && !sections[i].isDefault && sections[i].entries != []
    && (sections[i].verb == "endswith" <==> endings)
  }

  ghost predicate HasEntries(sections: seq<Section>, endings: bool) {
    exists i :: IsSource(sections, endings, i)
  }

  lemma SourceBefore(sections: seq<Section>, endings: bool, n: nat)
    requires n + 1 == |sections|
    ensures HasEntries(sections, endings) <==> HasEntries(sections[..n], endings) || IsSource(sections, endings, n)
  {
    var init := sections[..n];
    if i :| IsSource(init, endings, i) {
      assert IsSource(sections, endings, i);
    }
    if i :| IsSource(sections, endings, i) {
      assert i < n ==> IsSource(init, endings, i);
    }
  }

  lemma {:induction false} RulesIffEntries(sections: seq<Section>, endings: bool, removeSpaces: bool)
    ensures RulesOf(sections, endings, removeSpaces) != [] <==> HasEntries(sections, endings)
  {
    if sections == [] {
    } else {
      var n := |sections| - 1;
      RulesIffEntries(sections[..n], endings, removeSpaces);
      SourceBefore(sections, endings, n);
      assert |LastRules(sections, endings, removeSpaces)| > 0 <==> IsSource(sections, endings, n);
    }
  }

  // ------------------------------------------------------------------
  // Compiling and looking up
  // ------------------------------------------------------------------

  datatype Schema = Schema(ignoreSpaces: bool, direct: Node, reverse: Node)

  /** None when build_search_tree raises ValueError. */
  method CompileSchema(sections: seq<Section>, removeSpaces: bool) returns (schema: Option<Schema>)
    requires WellFormed(sections, removeSpaces)
    ensures schema.Some? <==> HasEntries(sections, false) && HasEntries(sections, true)
    ensures schema.Some? ==>
              RulesOf(sections, false, removeSpaces) != [] && RulesOf(sections, true, removeSpaces) != []
    ensures schema.Some? ==> schema.value == SchemaOf(sections, removeSpaces)
  {
    var directSearch, reverseSearch := CollectRules(sections, removeSpaces);
    RulesIffEntries(sections, false, removeSpaces);
    RulesIffEntries(sections, true, removeSpaces);
    ReverseKeepsNonEmpty(RulesOf(sections, true, removeSpaces));
    var direct := BuildSearchTree(directSearch);
    if direct.ValueError? {
      return None;
    }
    var reverse := BuildSearchTree(reverseSearch);
    if reverse.ValueError? {
      return None;
    }
    return Some(Schema(removeSpaces, direct.root, reverse.root));
  }

  /** No option line is blank: the configuration parser rejects an empty option name. */
  predicate WellFormed(sections: seq<Section>, removeSpaces: bool) {
    NonEmptyTags(RulesOf(sections, false, removeSpaces)) && NonEmptyTags(RulesOf(sections, true, removeSpaces))
  }

  function SchemaOf(sections: seq<Section>, removeSpaces: bool): Schema
    requires WellFormed(sections, removeSpaces)
    requires RulesOf(sections, false, removeSpaces) != [] && RulesOf(sections, true, removeSpaces) != []
  {
    ReverseKeepsNonEmpty(RulesOf(sections, true, removeSpaces));
    Schema(removeSpaces,
           TreeOf(RulesOf(sections, false, removeSpaces)),
           TreeOf(ReverseTags(RulesOf(sections, true, removeSpaces))))
  }

  /** A category, or the KeyError of either lookup. */
  datatype Outcome = Category(category: string) | Raised

  function Categorize(schema: Schema, name: string, default: string): Outcome {
    match Search(schema.direct, name, None)
    case KeyError => Raised
    case Found(Some(category)) => Category(category)
    case Found(None) =>
      match Search(schema.reverse, Reverse(name), None)
      case KeyError => Raised
      case Found(Some(category)) => Category(category)
      case Found(None) => Category(default)
  }

  // ------------------------------------------------------------------
  // The flat evaluator
  // ------------------------------------------------------------------

  /** The category of the longest tag among the last n, n-1, ..., 0 characters of the name. */
  function SuffixCategory(endings: seq<Rule>, name: string, n: nat): Option<string>
    requires n <= |name|
  {
    var own := Effective(endings, name[|name| - n..]);
    if own.Some? then Some(own.value.category)
    else if n == 0 then None
    else SuffixCategory(endings, name, n - 1)
  }

  function FlatCategory(direct: seq<Rule>, endings: seq<Rule>, name: string, default: string): string {
    match Answer(direct, name)
    case Some(category) => category
    case None =>
      match SuffixCategory(endings, name, |name|)
      case Some(category) => category
      case None => default
  }

  // ------------------------------------------------------------------
  // Reversal
  // ------------------------------------------------------------------

  lemma ReverseTwice(s: string)
    ensures Reverse(Reverse(s)) == s
  {}

  lemma ReversePrefix(name: string, n: nat)
    requires n <= |name|
    ensures Reverse(name)[..n] == Reverse(name[|name| - n..])
  {}

  lemma ReverseKeepsNonEmpty(rules: seq<Rule>)
    requires NonEmptyTags(rules)
    ensures NonEmptyTags(ReverseTags(rules))
  {
    forall r | r in ReverseTags(rules) ensures r.tag != "" {
      var i :| 0 <= i < |rules| && ReverseTags(rules)[i] == r;
      assert rules[i] in rules;
    }
  }

  lemma {:induction false} EffectiveReversed(rules: seq<Rule>, text: string)
    ensures Effective(ReverseTags(rules), Reverse(text)) == Effective(rules, text)
  {
    if rules == [] {
    } else {
      var init := rules[..|rules| - 1];
      var reversed := ReverseTags(rules);
      assert reversed[..|reversed| - 1] == ReverseTags(init);
      EffectiveReversed(init, text);
      ReverseTwice(text);
      ReverseTwice(rules[|rules| - 1].tag);
    }
  }

  lemma {:induction false} InexactRules(rules: seq<Rule>, text: string)
    requires forall r <- rules :: !r.exact
    ensures !IsExactTag(rules, text)
  {
    if rules == [] {
    } else {
      assert rules[|rules| - 1] in rules;
      InexactRules(rules[..|rules| - 1], text);
    }
  }

  /** A prefix search among reversed tags for the reversed name is a suffix search. */
  lemma {:induction false} ReversedPrefixIsSuffix(endings: seq<Rule>, name: string, n: nat)
    requires forall r <- endings :: !r.exact
    requires n <= |name|
    ensures PrefixCategory(ReverseTags(endings), Reverse(name), n) == SuffixCategory(endings, name, n)
  {
    var text := name[|name| - n..];
    ReversePrefix(name, n);
    EffectiveReversed(endings, text);
    InexactRules(endings, text);
    if n == 0 {
    } else {
      ReversedPrefixIsSuffix(endings, name, n - 1);
    }
  }

  lemma {:induction false} EndingsInexact(sections: seq<Section>, removeSpaces: bool)
    ensures forall r <- RulesOf(sections, true, removeSpaces) :: !r.exact
  {
    if sections == [] {
    } else {
      EndingsInexact(sections[..|sections| - 1], removeSpaces);
    }
  }

  lemma {:induction false} ReversedAnswer(endings: seq<Rule>, name: string)
    requires forall r <- endings :: !r.exact
    ensures !IsExactTag(ReverseTags(endings), Reverse(name))
    ensures Answer(ReverseTags(endings), Reverse(name)) == SuffixCategory(endings, name, |name|)
  {
    EffectiveReversed(endings, name);
    InexactRules(endings, name);
    ReversedPrefixIsSuffix(endings, name, |name|);
  }

  // ------------------------------------------------------------------
  // The compiled schema means what the sections say
  // ------------------------------------------------------------------

  /** Exactly when the two-stage lookup raises: in the direct index, or unanswered there and in the reversed one. */
  predicate CategorizeFails(direct: seq<Rule>, endings: seq<Rule>, name: string)
    requires NonEmptyTags(direct) && NonEmptyTags(ReverseTags(endings))
  {
    LookupFails(direct, name)
    || (Answer(direct, name) == None && EndsInside(ReverseTags(endings), Reverse(name)))
  }

  lemma {:induction false} CategorizeIsFlat(sections: seq<Section>, removeSpaces: bool, name: string, default: string)
    requires WellFormed(sections, removeSpaces)
    requires RulesOf(sections, false, removeSpaces) != [] && RulesOf(sections, true, removeSpaces) != []
    ensures NonEmptyTags(ReverseTags(RulesOf(sections, true, removeSpaces)))
    ensures var direct, endings := RulesOf(sections, false, removeSpaces), RulesOf(sections, true, removeSpaces);
            Categorize(SchemaOf(sections, removeSpaces), name, default) ==
            if CategorizeFails(direct, endings, name) then Raised
            else Category(FlatCategory(direct, endings, name, default))
  {
    var direct, endings := RulesOf(sections, false, removeSpaces), RulesOf(sections, true, removeSpaces);
    EndingsInexact(sections, removeSpaces);
    ReverseKeepsNonEmpty(endings);
    LookupIsAnswer(direct, name);
    LookupIsAnswer(ReverseTags(endings), Reverse(name));
    ReversedAnswer(endings, name);
  }

  /** A raise always comes from a longer tag that starts with, or ends with, the whole name. */
  lemma CategorizeFailsOnlyBelowTags(direct: seq<Rule>, endings: seq<Rule>, name: string)
    requires NonEmptyTags(direct) && NonEmptyTags(endings) && NonEmptyTags(ReverseTags(endings))
    requires CategorizeFails(direct, endings, name)
    ensures HasLongerTag(direct, name) || HasLongerEnding(endings, name)
  {
    if LookupFails(direct, name) {
      EndsInsideHasLongerTag(direct, name);
    } else {
      EndsInsideHasLongerTag(ReverseTags(endings), Reverse(name));
      LongerReversedTag(endings, name);
    }
  }

  /** Some tag is longer than the name and ends with it. */
  predicate HasLongerEnding(endings: seq<Rule>, name: string) {
    exists r <- endings :: |name| < |r.tag| && r.tag[|r.tag| - |name|..] == name
  }

  lemma LongerReversedTag(endings: seq<Rule>, name: string)
    requires HasLongerTag(ReverseTags(endings), Reverse(name))
    ensures HasLongerEnding(endings, name)
  {
    var reversed := ReverseTags(endings);
    var r :| r in reversed && Reverse(name) < r.tag;
    var i :| 0 <= i < |reversed| && reversed[i] == r;
    var tag := endings[i].tag;
    ReversePrefix(tag, |name|);
    ReverseTwice(name);
    ReverseTwice(tag[|tag| - |name|..]);
    assert endings[i] in endings && tag[|tag| - |name|..] == name;
  }

  // ------------------------------------------------------------------
  // The category of a name, read off the sections
  // ------------------------------------------------------------------

  /** The last entry for the text outside the "ends with" sections is in a section of the category, exact or not. */
  ghost predicate DirectRule(sections: seq<Section>, removeSpaces: bool, exact: bool, text: string, category: string) {
    exists i: nat, j: nat :: LastEntryFor(sections, false, removeSpaces, i, j, text)
                             && (sections[i].verb == "equalsto" <==> exact) && sections[i].category == category
  }

  /** The last entry for the text in the "ends with" sections is in a section of the category. */
  ghost predicate EndingRule(sections: seq<Section>, removeSpaces: bool, text: string, category: string) {
    exists i: nat, j: nat :: LastEntryFor(sections, true, removeSpaces, i, j, text) && sections[i].category == category
  }

  /** The category is that of the name as an "equals to" entry. */
  ghost predicate ByEquality(sections: seq<Section>, removeSpaces: bool, name: string, category: string) {
    DirectRule(sections, removeSpaces, true, name, category)
  }

  ghost predicate NoPrefixRule(sections: seq<Section>, removeSpaces: bool, text: string) {
    forall c :: !DirectRule(sections, removeSpaces, false, text, c)
  }

  ghost predicate NoEndingRule(sections: seq<Section>, removeSpaces: bool, text: string) {
    forall c :: !EndingRule(sections, removeSpaces, text, c)
  }

  /** The longest "starts with" entry of the name has m characters and the category. */
  ghost predicate PrefixAt(sections: seq<Section>, removeSpaces: bool, name: string, m: nat, category: string) {
    && m <= |name| && DirectRule(sections, removeSpaces, false, name[..m], category)
    && forall l :: m < l <= |name| ==> NoPrefixRule(sections, removeSpaces, name[..l])
  }

  /** The longest "ends with" entry of the name starts at position m and has the category. */
  ghost predicate SuffixAt(sections: seq<Section>, removeSpaces: bool, name: string, m: nat, category: string) {
    && m <= |name| && EndingRule(sections, removeSpaces, name[m..], category)
    && forall l :: 0 <= l < m ==> NoEndingRule(sections, removeSpaces, name[l..])
  }

  /** The category is that of the longest "starts with" entry of the name. */
  ghost predicate ByPrefix(sections: seq<Section>, removeSpaces: bool, name: string, category: string) {
    exists m: nat :: PrefixAt(sections, removeSpaces, name, m, category)
  }

  /** The category is that of the longest "ends with" entry of the name. */
  ghost predicate BySuffix(sections: seq<Section>, removeSpaces: bool, name: string, category: string) {
    exists m: nat :: SuffixAt(sections, removeSpaces, name, m, category)
  }

  lemma DirectRuleIff(sections: seq<Section>, removeSpaces: bool, exact: bool, text: string, category: string)
    ensures DirectRule(sections, removeSpaces, exact, text, category)
            <==> Effective(RulesOf(sections, false, removeSpaces), text) == Some(Verdict(category, exact))
  {
    RuleInForce(sections, false, removeSpaces, text);
    var own := Effective(RulesOf(sections, false, removeSpaces), text);
    if own.Some? {
      var i: nat, j: nat :| LastEntryFor(sections, false, removeSpaces, i, j, text)
        && own.value == Verdict(sections[i].category, sections[i].verb == "equalsto");
      forall k: nat, l: nat | LastEntryFor(sections, false, removeSpaces, k, l, text) ensures k == i {}
    }
  }

  lemma EndingRuleIff(sections: seq<Section>, removeSpaces: bool, text: string, category: string)
    ensures EndingRule(sections, removeSpaces, text, category)
            <==> Effective(RulesOf(sections, true, removeSpaces), text) == Some(Verdict(category, false))
  {
    RuleInForce(sections, true, removeSpaces, text);
    var own := Effective(RulesOf(sections, true, removeSpaces), text);
    if own.Some? {
      var i: nat, j: nat :| LastEntryFor(sections, true, removeSpaces, i, j, text)
        && own.value == Verdict(sections[i].category, sections[i].verb == "equalsto");
      forall k: nat, l: nat | LastEntryFor(sections, true, removeSpaces, k, l, text) ensures k == i {}
    }
  }

  lemma NoPrefixRuleIff(sections: seq<Section>, removeSpaces: bool, text: string)
    ensures NoPrefixRule(sections, removeSpaces, text) <==> !IsPrefixTag(RulesOf(sections, false, removeSpaces), text)
  {
    var own := Effective(RulesOf(sections, false, removeSpaces), text);
    if own.Some? {
      DirectRuleIff(sections, removeSpaces, false, text, own.value.category);
    }
    forall c ensures DirectRule(sections, removeSpaces, false, text, c) ==> own == Some(Verdict(c, false)) {
      DirectRuleIff(sections, removeSpaces, false, text, c);
    }
  }

  lemma NoEndingRuleIff(sections: seq<Section>, removeSpaces: bool, text: string)
    ensures NoEndingRule(sections, removeSpaces, text)
            <==> Effective(RulesOf(sections, true, removeSpaces), text) == None
  {
    var rules := RulesOf(sections, true, removeSpaces);
    EndingsInexact(sections, removeSpaces);
    InexactRules(rules, text);
    var own := Effective(rules, text);
    if own.Some? {
      EndingRuleIff(sections, removeSpaces, text, own.value.category);
    }
    forall c ensures EndingRule(sections, removeSpaces, text, c) ==> own == Some(Verdict(c, false)) {
      EndingRuleIff(sections, removeSpaces, text, c);
    }
  }

  lemma PrefixFound(sections: seq<Section>, removeSpaces: bool, name: string, m: nat)
    requires m <= |name| && IsPrefixTag(RulesOf(sections, false, removeSpaces), name[..m])
    requires forall l :: m < l <= |name| ==> !IsPrefixTag(RulesOf(sections, false, removeSpaces), name[..l])
    ensures ByPrefix(sections, removeSpaces, name,
                     Effective(RulesOf(sections, false, removeSpaces), name[..m]).value.category)
  {
    var c := Effective(RulesOf(sections, false, removeSpaces), name[..m]).value.category;
    DirectRuleIff(sections, removeSpaces, false, name[..m], c);
    forall l | m < l <= |name| ensures NoPrefixRule(sections, removeSpaces, name[..l]) {
      NoPrefixRuleIff(sections, removeSpaces, name[..l]);
    }
    assert PrefixAt(sections, removeSpaces, name, m, c);
  }

  lemma PrefixDecides(sections: seq<Section>, removeSpaces: bool, name: string)
    ensures match PrefixCategory(RulesOf(sections, false, removeSpaces), name, |name|)
            case None => forall c :: !ByPrefix(sections, removeSpaces, name, c)
            case Some(c) => ByPrefix(sections, removeSpaces, name, c)
  {
    var rules := RulesOf(sections, false, removeSpaces);
    PrefixCategoryIsLongest(rules, name, |name|);
    if PrefixCategory(rules, name, |name|).Some? {
      var m :| 0 <= m <= |name| && IsPrefixTag(rules, name[..m])
        && PrefixCategory(rules, name, |name|).value == Effective(rules, name[..m]).value.category
        && forall l :: m < l <= |name| ==> !IsPrefixTag(rules, name[..l]);
      PrefixFound(sections, removeSpaces, name, m);
    } else {
      forall c, m: nat ensures !PrefixAt(sections, removeSpaces, name, m, c) {
        if m <= |name| {
          NoPrefixRuleIff(sections, removeSpaces, name[..m]);
        }
      }
    }
  }

  lemma {:induction false} SuffixIsLongest(endings: seq<Rule>, name: string, n: nat)
    requires n <= |name|
    ensures match SuffixCategory(endings, name, n)
            case None => forall m :: |name| - n <= m <= |name| ==> Effective(endings, name[m..]) == None
            case Some(c) => exists m :: |name| - n <= m <= |name| && Effective(endings, name[m..]).Some?
                              && c == Effective(endings, name[m..]).value.category
                              && forall l :: |name| - n <= l < m ==> Effective(endings, name[l..]) == None
  {
    if Effective(endings, name[|name| - n..]).Some? {
    } else if n == 0 {
    } else {
      SuffixIsLongest(endings, name, n - 1);
    }
  }

  lemma SuffixFound(sections: seq<Section>, removeSpaces: bool, name: string, m: nat)
    requires m <= |name| && Effective(RulesOf(sections, true, removeSpaces), name[m..]).Some?
    requires forall l :: 0 <= l < m ==> Effective(RulesOf(sections, true, removeSpaces), name[l..]) == None
    ensures BySuffix(sections, removeSpaces, name,
                     Effective(RulesOf(sections, true, removeSpaces), name[m..]).value.category)
  {
    var rules := RulesOf(sections, true, removeSpaces);
    var c := Effective(rules, name[m..]).value.category;
    EndingsInexact(sections, removeSpaces);
    InexactRules(rules, name[m..]);
    EndingRuleIff(sections, removeSpaces, name[m..], c);
    forall l | 0 <= l < m ensures NoEndingRule(sections, removeSpaces, name[l..]) {
      NoEndingRuleIff(sections, removeSpaces, name[l..]);
    }
    assert SuffixAt(sections, removeSpaces, name, m, c);
  }

  lemma SuffixDecides(sections: seq<Section>, removeSpaces: bool, name: string)
    ensures match SuffixCategory(RulesOf(sections, true, removeSpaces), name, |name|)
            case None => forall c :: !BySuffix(sections, removeSpaces, name, c)
            case Some(c) => BySuffix(sections, removeSpaces, name, c)
  {
    var rules := RulesOf(sections, true, removeSpaces);
    SuffixIsLongest(rules, name, |name|);
    if SuffixCategory(rules, name, |name|).Some? {
      var m :| 0 <= m <= |name| && Effective(rules, name[m..]).Some?
        && SuffixCategory(rules, name, |name|).value == Effective(rules, name[m..]).value.category
        && forall l :: 0 <= l < m ==> Effective(rules, name[l..]) == None;
      SuffixFound(sections, removeSpaces, name, m);
    } else {
      forall c, m: nat ensures !SuffixAt(sections, removeSpaces, name, m, c) {
        if m <= |name| {
          NoEndingRuleIff(sections, removeSpaces, name[m..]);
        }
      }
    }
  }

  /**
    The category of the name as an "equals to" entry, else of its longest "starts
    with" entry, else of its longest "ends with" entry, else the default.
   */
  ghost predicate Decides(sections: seq<Section>, removeSpaces: bool, name: string, default: string, category: string) {
    if exists c :: ByEquality(sections, removeSpaces, name, c) then ByEquality(sections, removeSpaces, name, category)
    else if exists c :: ByPrefix(sections, removeSpaces, name, c) then ByPrefix(sections, removeSpaces, name, category)
    else if exists c :: BySuffix(sections, removeSpaces, name, c) then BySuffix(sections, removeSpaces, name, category)
    else category == default
  }

  /** What a compiled schema answers for a name, whenever it does not raise. */
  lemma {:induction false} SectionsDecide(sections: seq<Section>, removeSpaces: bool, name: string, default: string)
    requires WellFormed(sections, removeSpaces)
    requires RulesOf(sections, false, removeSpaces) != [] && RulesOf(sections, true, removeSpaces) != []
    ensures match Categorize(SchemaOf(sections, removeSpaces), name, default)
            case Raised => CategorizeFails(RulesOf(sections, false, removeSpaces),
                                           RulesOf(sections, true, removeSpaces), name)
            case Category(category) => Decides(sections, removeSpaces, name, default, category)
  {
    CategorizeIsFlat(sections, removeSpaces, name, default);
    PrefixDecides(sections, removeSpaces, name);
    SuffixDecides(sections, removeSpaces, name);
    forall c ensures ByEquality(sections, removeSpaces, name, c)
                     <==> Effective(RulesOf(sections, false, removeSpaces), name) == Some(Verdict(c, true))
    {
      DirectRuleIff(sections, removeSpaces, true, name, c);
    }
  }
}
