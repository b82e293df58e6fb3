/** What access rules grant, and the matcher that looks a target up in them (kubeutil/rbac/rbac.go). */
module RbacRules {
  datatype Target = Target(verb: string, group: string, resource: string, namespace: string)

  datatype Rule = Rule(resourceNames: seq<string>, verbs: seq<string>, groups: seq<string>, resources: seq<string>)

  /** A way of acting on a kind of resource. */
  datatype Access = Access(verb: string, group: string, resource: string)

  function AccessOf(t: Target): Access {
    Access(t.verb, t.group, t.resource)
  }

  /** A listed word stands for itself, the star for every word. */
  predicate Matches(pattern: string, word: string) {
    pattern == "*" || pattern == word
  }

  /** The verbs, groups and resources of a rule combine freely. A rule limited to named resources grants no kind. */
  ghost predicate Grants(r: Rule, a: Access) {
    r.resourceNames == [] &&
    exists v, g, s ::
      && v in r.verbs && g in r.groups && s in r.resources
      && Matches(v, a.verb) && Matches(g, a.group) && Matches(s, a.resource)
  }

  ghost function GrantedBy(r: Rule): iset<Access> {
    iset a: Access | Grants(r, a)
  }

  /** All that a list of rules grants. */
  ghost function Granted(rules: seq<Rule>): iset<Access> {
    if rules == [] then iset{} else Granted(rules[..|rules| - 1]) + GrantedBy(rules[|rules| - 1])
  }

  ghost predicate RulesAllow(rules: seq<Rule>, t: Target) {
    AccessOf(t) in Granted(rules)
  }

  lemma {:induction false} GrantedIff(rules: seq<Rule>, a: Access)
    ensures a in Granted(rules) <==> exists i :: 0 <= i < |rules| && Grants(rules[i], a)
  {
    if rules != [] {
      var front := rules[..|rules| - 1];
      GrantedIff(front, a);
      if i :| 0 <= i < |front| && Grants(front[i], a) { assert Grants(rules[i], a); }
      if i :| 0 <= i < |rules| && Grants(rules[i], a) { assert i == |front| || Grants(front[i], a); }
    }
  }

  /** stringSliceContains: the star or the word is listed. */
  method SliceContains(values: seq<string>, wanted: string) returns (r: bool)
    ensures r <==> exists x :: x in values && Matches(x, wanted)
  {
    for i := 0 to |values|
      invariant forall x :: x in values[..i] ==> !Matches(x, wanted)
    {
      if values[i] == "*" || values[i] == wanted {
        assert values[i] in values && Matches(values[i], wanted);
        return true;
      }
    }
    assert values[..|values|] == values;
    r := false;
  }

  /** rulesAllowTarget: membership in what the rules grant together. */
  method RulesAllowTarget(rules: seq<Rule>, t: Target) returns (r: bool)
    ensures r <==> RulesAllow(rules, t)
  {
    hide Granted, Matches;
    GrantedIff(rules, AccessOf(t));
    for i := 0 to |rules|
      invariant forall j :: 0 <= j < i ==> !Grants(rules[j], AccessOf(t))
    {
      if |rules[i].resourceNames| > 0 { continue; }
      var verb := SliceContains(rules[i].verbs, t.verb);
      if !verb { continue; }
      var group := SliceContains(rules[i].groups, t.group);
      if !group { continue; }
      var resource := SliceContains(rules[i].resources, t.resource);
      if !resource { continue; }
      assert Grants(rules[i], AccessOf(t));
      return true;
    }
    r := false;
  }

  // ---- what that comes to ------------------------------------------------------------------------

  /** What is listed is granted, in every combination. */
  lemma ListedIsGranted(rules: seq<Rule>, i: nat, v: string, g: string, s: string)
    requires i < |rules| && rules[i].resourceNames == []
    requires v in rules[i].verbs && g in rules[i].groups && s in rules[i].resources
    ensures Access(v, g, s) in Granted(rules)
    ensures v == "*" ==> forall w :: Access(w, g, s) in Granted(rules)
    ensures g == "*" ==> forall w :: Access(v, w, s) in Granted(rules)
    ensures s == "*" ==> forall w :: Access(v, g, w) in Granted(rules)
  {
    forall a: Access | Matches(v, a.verb) && Matches(g, a.group) && Matches(s, a.resource) ensures a in Granted(rules) {
      assert Grants(rules[i], a);
      GrantedIff(rules, a);
    }
  }

  /** A target whose verb, group or resource no rule lists and no rule stars is not allowed by rules. */
  lemma UnlistedIsRefused(rules: seq<Rule>, t: Target)
    requires || (forall r :: r in rules ==> t.verb !in r.verbs && "*" !in r.verbs)
             || (forall r :: r in rules ==> t.group !in r.groups && "*" !in r.groups)
             || (forall r :: r in rules ==> t.resource !in r.resources && "*" !in r.resources)
    ensures !RulesAllow(rules, t)
  {
    GrantedIff(rules, AccessOf(t));
  }

  /** Rules limited to named resources allow nothing. */
  lemma NamedIsRefused(rules: seq<Rule>, t: Target)
    requires forall i :: 0 <= i < |rules| ==> rules[i].resourceNames != []
    ensures !RulesAllow(rules, t)
  {
    GrantedIff(rules, AccessOf(t));
  }

  /** One rule grants exactly the combinations of what it lists, a star standing for everything. */
  lemma GrantsIff(r: Rule, a: Access)
    ensures a in GrantedBy(r) <==>
            && r.resourceNames == []
            && (a.verb in r.verbs || "*" in r.verbs)
            && (a.group in r.groups || "*" in r.groups)
            && (a.resource in r.resources || "*" in r.resources)
  {
    if r.resourceNames == [] && (a.verb in r.verbs || "*" in r.verbs) && (a.group in r.groups || "*" in r.groups)
       && (a.resource in r.resources || "*" in r.resources) {
      var v := if "*" in r.verbs then "*" else a.verb;
      var g := if "*" in r.groups then "*" else a.group;
      var s := if "*" in r.resources then "*" else a.resource;
      assert Matches(v, a.verb) && Matches(g, a.group) && Matches(s, a.resource);
    }
  }
}
