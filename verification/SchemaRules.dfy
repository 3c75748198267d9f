/**
  The flat meaning of a kernel-name schema: a list of (tag, category, exact)
  rules in which a later entry overrides an earlier one with the same tag.
  Nothing in this module knows about search trees; it is the reference that the
  compiled index of module SearchTree is compared with.
 */
module SchemaRules {
  import opened Prelude

  datatype Rule = Rule(tag: string, category: string, exact: bool)

  /** What a rule list says about one tag. */
  datatype Verdict = Verdict(category: string, exact: bool)

  predicate NonEmptyTags(rules: seq<Rule>) {
    forall r <- rules :: r.tag != ""
  }

  predicate HasTag(rules: seq<Rule>, text: string) {
    exists r <- rules :: r.tag == text
  }

  /** Some tag is longer than `text` and starts with it. */
  predicate HasLongerTag(rules: seq<Rule>, text: string) {
    exists r <- rules :: text < r.tag
  }

  /** The verdict on `text` as a tag: that of the last rule whose tag is `text`. */
  function Effective(rules: seq<Rule>, text: string): Option<Verdict> {
    if rules == [] then None
    else
      var last := rules[|rules| - 1];
      if last.tag == text then Some(Verdict(last.category, last.exact))
      else Effective(rules[..|rules| - 1], text)
  }

  predicate IsExactTag(rules: seq<Rule>, name: string) {
    var own := Effective(rules, name);
    own.Some? && own.value.exact
  }

  predicate IsPrefixTag(rules: seq<Rule>, text: string) {
    var own := Effective(rules, text);
    own.Some? && !own.value.exact
  }

  /** The category of the longest "starts with" tag among name[..n], name[..n-1], ..., name[..0]. */
  function PrefixCategory(rules: seq<Rule>, name: string, n: nat): Option<string>
    requires n <= |name|
  {
    if IsPrefixTag(rules, name[..n]) then Some(Effective(rules, name[..n]).value.category)
    else if n == 0 then None
    else PrefixCategory(rules, name, n - 1)
  }

  /** The category the rules give a name: an exact rule first, else the longest prefix rule. */
  function Answer(rules: seq<Rule>, name: string): Option<string> {
    if IsExactTag(rules, name) then Some(Effective(rules, name).value.category)
    else PrefixCategory(rules, name, |name|)
  }

  /** Effective is exactly "the last entry for that tag". */
  lemma {:induction false} EffectiveIsLastEntry(rules: seq<Rule>, text: string, i: nat)
    requires i < |rules| && rules[i].tag == text
    requires forall j :: i < j < |rules| ==> rules[j].tag != text
    ensures Effective(rules, text) == Some(Verdict(rules[i].category, rules[i].exact))
  {
    if i < |rules| - 1 {
      EffectiveIsLastEntry(rules[..|rules| - 1], text, i);
    }
  }

  lemma {:induction false} EffectiveIsMembership(rules: seq<Rule>, text: string)
    ensures Effective(rules, text).Some? <==> HasTag(rules, text)
  {
    if rules == [] {
    } else {
      var init, last := rules[..|rules| - 1], rules[|rules| - 1];
      assert rules == init + [last];
      EffectiveIsMembership(init, text);
    }
  }

  /** PrefixCategory picks the longest matching prefix tag, and None only when there is none. */
  lemma {:induction false} PrefixCategoryIsLongest(rules: seq<Rule>, name: string, n: nat)
    requires n <= |name|
    ensures match PrefixCategory(rules, name, n)
            case None => forall m :: 0 <= m <= n ==> !IsPrefixTag(rules, name[..m])
            case Some(c) => exists m :: 0 <= m <= n && IsPrefixTag(rules, name[..m])
                              && c == Effective(rules, name[..m]).value.category
                              && forall l :: m < l <= n ==> !IsPrefixTag(rules, name[..l])
  {
    if IsPrefixTag(rules, name[..n]) {
      assert 0 <= n <= n && IsPrefixTag(rules, name[..n]);
    } else if n > 0 {
      PrefixCategoryIsLongest(rules, name, n - 1);
    }
  }
}
