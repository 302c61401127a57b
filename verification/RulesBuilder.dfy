/** The builder of the rule table: tags with their ids, operations marked as actions, rules of actions. */
module RulesBuilder {
  import opened IfcTags
  import opened TaintRules
  import opened IrModule

  /** Names and ids are inverse tables. */
  ghost predicate AreInverse(tags: map<string, TagId>, tagNames: seq<string>) {
    (forall name :: name in tags ==> tags[name] < |tagNames| && tagNames[tags[name]] == name) &&
    (forall i :: 0 <= i < |tagNames| ==> tagNames[i] in tags && tags[tagNames[i]] == i)
  }

  predicate HasNoDuplicates(names: seq<string>) {
    forall i, j :: 0 <= i < j < |names| ==> names[i] != names[j]
  }

  /** Everything known about the tags before is still true. */
  predicate Extends(tags: map<string, TagId>, tags': map<string, TagId>) {
    forall name :: name in tags ==> name in tags' && tags'[name] == tags[name]
  }

  /** The table has as many ids as names, so the next id is the number of tags. */
  lemma InverseSize(tags: map<string, TagId>, tagNames: seq<string>)
    requires AreInverse(tags, tagNames)
    ensures |tags| == |tagNames|
  {
    var ids := set name | name in tags :: tags[name];
    assert ids == NumbersBelow(|tagNames|) by {
      forall i: nat | i < |tagNames|
        ensures i in ids
      {
        assert tagNames[i] in tags;
      }
    }
    SameSize(tags, tags.Keys);
    assert (set name | name in tags.Keys :: tags[name]) == ids;
  }

  function NumbersBelow(n: nat): (r: set<nat>)
    ensures |r| == n && forall i: nat :: i in r <==> i < n
  {
    if n == 0 then {} else NumbersBelow(n - 1) + {n - 1}
  }

  /** An injective table has as many ids as names. */
  lemma {:induction false} SameSize(tags: map<string, TagId>, names: set<string>)
    requires names <= tags.Keys
    requires forall a, b :: a in names && b in names && tags[a] == tags[b] ==> a == b
    ensures |set name | name in names :: tags[name]| == |names|
    decreases |names|
  {
    var ids := set name | name in names :: tags[name];
    if names != {} {
      var n :| n in names;
      SameSize(tags, names - {n});
      var rest := set name | name in names - {n} :: tags[name];
      assert ids == rest + {tags[n]};
    }
  }

  class InferenceRulesBuilder {
    var tagNames: seq<string>
    var tags: map<string, TagId>
    var actionRules: map<string, OutputRules>
    var actions: map<OpId, string>

    ghost predicate Valid()
      reads this
    {
      AreInverse(tags, tagNames)
    }

    /** The rule table that would be built now. */
    ghost function Table(): InferenceRules
      reads this
    {
      InferenceRules(actionRules, actions, tags, tagNames)
    }

    constructor ()
      ensures Valid() && tagNames == [] && actionRules == map[] && actions == map[]
    {
      tagNames, tags, actionRules, actions := [], map[], map[], map[];
    }

    /** Numbers the seed tags in order; fails exactly when one occurs twice. */
    method AddSeedTags(seeds: seq<string>) returns (ok: bool)
      requires Valid() && tagNames == []
      modifies this`tags, this`tagNames
      ensures ok <==> HasNoDuplicates(seeds)
      ensures ok ==> Valid() && tagNames == seeds
    {
      InverseSize(tags, tagNames);
      tagNames := seeds;
      for i := 0 to |seeds|
        invariant tagNames == seeds && HasNoDuplicates(seeds[..i]) && AreInverse(tags, seeds[..i])
      {
        InverseSize(tags, seeds[..i]);
        if seeds[i] in tags {
          assert seeds[..i][tags[seeds[i]]] == seeds[i];
          return false;
        }
        tags := tags[seeds[i] := |tags|];
        assert seeds[..i + 1] == seeds[..i] + [seeds[i]];
      }
      assert seeds[..|seeds|] == seeds;
      return true;
    }

    /** Fails exactly when the operation is marked already. */
    method MarkOperationAsAction(o: OpId, action: string) returns (ok: bool)
      modifies this`actions
      ensures ok <==> o !in old(actions)
      ensures actions == if ok then old(actions)[o := action] else old(actions)
    {
      ok := o !in actions;
      if ok {
        actions := actions[o := action];
      }
    }

    /** Fails exactly when the action has rules already. */
    method AddOutputRulesForAction(action: string, rules: OutputRules) returns (ok: bool)
      modifies this`actionRules
      ensures ok <==> action !in old(actionRules)
      ensures actionRules == if ok then old(actionRules)[action := rules] else old(actionRules)
    {
      ok := action !in actionRules;
      if ok {
        actionRules := actionRules[action := rules];
      }
    }

    /** The id of a tag; a new tag gets the next one, and no other tag changes. */
    method GetOrCreateTagId(tag: string) returns (id: TagId)
      requires Valid()
      modifies this`tags, this`tagNames
      ensures Valid() && Extends(old(tags), tags)
      ensures tag in tags && id == tags[tag]
      ensures tags.Keys == old(tags.Keys) + {tag} && old(tagNames) <= tagNames
    {
      InverseSize(tags, tagNames);
      if tag !in tags {
        tags := tags[tag := |tags|];
        tagNames := tagNames + [tag];
      }
      id := tags[tag];
    }

    method Build() returns (rules: InferenceRules)
      ensures rules == Table()
    {
      rules := InferenceRules(actionRules, actions, tags, tagNames);
    }
  }
}
