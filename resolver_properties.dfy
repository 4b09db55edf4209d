/**
 * Properties of the resolver: how `action_reflect` combines the lookup for
 * the action's own id with the lookups for its type ids, and what `item_mrf`
 * makes of the result.
 */
module ResolverProperties {
  import opened Ascii
  import opened GameBattler
  import opened ReflectProperties

  /** Reference sum of `lookup` over the ids `types`, first id first. */
  function TypeSum(lookup: int -> real, types: seq<int>): real
    decreases |types|
  {
    if types == [] then 0.0 else lookup(types[0]) + TypeSum(lookup, types[1..])
  }

  /** The left fold over the type ids is the accumulator plus the sum of their lookups. */
  lemma {:induction false} InjectTypesIsSum(acc: real, lookup: int -> real, types: seq<int>)
    ensures InjectTypes(acc, lookup, types) == acc + TypeSum(lookup, types)
    decreases |types|
  {
    if types != [] {
      var g := lookup(types[0]);
      InjectTypesIsSum(acc + g, lookup, types[1..]);
      assert InjectTypes(acc, lookup, types) == InjectTypes(acc + g, lookup, types[1..]);
      assert TypeSum(lookup, types) == g + TypeSum(lookup, types[1..]);
    }
  }

  /** A type id listed twice is looked up, and counted, twice. */
  lemma TypeSumRepeated(lookup: int -> real, i: int)
    ensures TypeSum(lookup, [i, i]) == 2.0 * lookup(i)
  {
    assert [i, i][1..] == [i];
    assert [i][1..] == [];
    assert TypeSum(lookup, [i]) == lookup(i) + 0.0;
  }

  /** Type ids whose lookups are all zero add nothing. */
  lemma {:induction false} TypeSumZero(lookup: int -> real, types: seq<int>)
    requires forall k :: 0 <= k < |types| ==> lookup(types[k]) == 0.0
    ensures TypeSum(lookup, types) == 0.0
    decreases |types|
  {
    if types != [] {
      assert lookup(types[0]) == 0.0;
      forall k | 0 <= k < |types| - 1
        ensures lookup(types[1..][k]) == 0.0
      {
        assert types[1..][k] == types[k + 1];
      }
      TypeSumZero(lookup, types[1..]);
    }
  }

  /**
   * `item_reflect` over well-formed notes: the number of tags for the action's
   * own category and id times the last one's value, over 100; the category is
   * `SKILL` for a skill and `ITEM` otherwise.
   */
  lemma ItemReflectNotes(ps: seq<Piece>, a: Action)
    requires WellFormedNotes(ps)
    ensures forall k :: 0 <= k < |Matching(ps, ItemCategory(a), a.id)| ==> WellFormed(Matching(ps, ItemCategory(a), a.id)[k])
    ensures ItemCategory(a) == (if a.isSkill then Skill else Item)
    ensures ItemReflect(RenderNotes(ps), a) == CountTimesLast(Matching(ps, ItemCategory(a), a.id))
  {
    LookupNotes(ps, ItemCategory(a), a.id);
  }

  /**
   * `item_type_reflect`: the sum of the `SKILL TYPE` (for a skill) or
   * `ITEM TYPE` lookups over the action's type ids, each id as often as listed.
   */
  lemma ItemTypeReflectSum(notes: string, a: Action)
    ensures ItemTypeReflect(notes, a)
         == TypeSum(i => GetActionReflect(notes, if a.isSkill then SkillType else ItemType, i), a.typeSet)
  {
    InjectTypesIsSum(0.0, i => GetActionReflect(notes, TypeCategory(a), i), a.typeSet);
  }

  /**
   * The extra reflect chance of an action: the `SKILL`/`ITEM` lookup for its
   * id plus the `SKILL TYPE`/`ITEM TYPE` lookups for each of its type ids.
   */
  lemma ActionReflectSplit(notes: string, a: Action)
    ensures ActionReflect(notes, a)
         == GetActionReflect(notes, if a.isSkill then Skill else Item, a.id)
            + TypeSum(i => GetActionReflect(notes, if a.isSkill then SkillType else ItemType, i), a.typeSet)
  {
    InjectTypesIsSum(0.0, i => GetActionReflect(notes, TypeCategory(a), i), a.typeSet);
  }

  /**
   * Notes holding no tag for the action's own category and id, nor for its
   * type category and any of its type ids, leave the action's chance at zero.
   */
  lemma ActionWithoutOwnTags(ps: seq<Piece>, a: Action)
    requires WellFormedNotes(ps)
    requires forall k :: 0 <= k < |ps| && ps[k].TagPiece? ==>
      ps[k].tag.category != ItemCategory(a) || ps[k].tag.id != a.id
    requires forall k, j :: 0 <= k < |ps| && 0 <= j < |a.typeSet| && ps[k].TagPiece? ==>
      ps[k].tag.category != TypeCategory(a) || ps[k].tag.id != a.typeSet[j]
    ensures ActionReflect(RenderNotes(ps), a) == 0.0
  {
    var notes := RenderNotes(ps);
    var lookup := i => GetActionReflect(notes, TypeCategory(a), i);
    LookupIsolated(ps, ItemCategory(a), a.id);
    forall j | 0 <= j < |a.typeSet|
      ensures lookup(a.typeSet[j]) == 0.0
    {
      LookupIsolated(ps, TypeCategory(a), a.typeSet[j]);
    }
    TypeSumZero(lookup, a.typeSet);
    InjectTypesIsSum(0.0, lookup, a.typeSet);
  }

  /** Notes holding only item tags grant a skill nothing: a skill ignores `ITEM` and `ITEM TYPE` tags. */
  lemma SkillIgnoresItemTags(ps: seq<Piece>, id: int, types: seq<int>)
    requires WellFormedNotes(ps)
    requires forall k :: 0 <= k < |ps| && ps[k].TagPiece? ==>
      ps[k].tag.category == Item || ps[k].tag.category == ItemType
    ensures ActionReflect(RenderNotes(ps), Action(true, id, types)) == 0.0
  {
    ActionWithoutOwnTags(ps, Action(true, id, types));
  }

  // ---------------------------------------------------------------- a worked example

  const SkillTag := Tag(Skill, 10, Plus, "25", true)
  const TypeTag := Tag(SkillType, 1, Plus, "5", true)
  const ExamplePieces := [TagPiece(SkillTag), Text(" some flavor text "), TagPiece(TypeTag)]

  lemma ExampleTags()
    ensures WellFormedNotes(ExamplePieces)
    ensures Value(SkillTag) == 25 && Value(TypeTag) == 5
  {
    assert NoOpen(" some flavor text ");
    assert "25"[..1] == "2";
    assert "5"[..0] == "";
    assert ParseNat("5") == 5;
  }

  lemma ExampleRender()
    ensures RenderNotes(ExamplePieces)
         == "<SKILL REFLECT 10: +25%>" + " some flavor text " + "<SKILL TYPE REFLECT 1: +5%>"
  {
    var r1 := Render(SkillTag);
    var r2 := Render(TypeTag);
    RenderSkillTag();
    RenderTypeTag();
    var ps := ExamplePieces;
    assert RenderNotes(ps[2..]) == r2 + "";
    assert RenderNotes(ps[1..]) == " some flavor text " + r2;
    assert RenderNotes(ps) == r1 + (" some flavor text " + r2);
  }

  lemma RenderSkillTag()
    ensures Render(SkillTag) == "<SKILL REFLECT 10: +25%>"
  {
    assert NatText(10) == "10" by {
      assert NatText(1) == "1";
    }
  }

  lemma RenderTypeTag()
    ensures Render(TypeTag) == "<SKILL TYPE REFLECT 1: +5%>"
  {
    assert NatText(1) == "1";
  }

  lemma ExampleMatches()
    ensures Matching(ExamplePieces, Skill, 10) == [SkillTag]
    ensures Matching(ExamplePieces, SkillType, 1) == [TypeTag]
  {
    var ps := ExamplePieces;
    assert Matching(ps[2..], Skill, 10) == [];
    assert Matching(ps[1..], Skill, 10) == [];
    assert Matching(ps[2..], SkillType, 1) == [TypeTag];
    assert Matching(ps[1..], SkillType, 1) == [TypeTag];
  }

  lemma ExampleLookups()
    ensures GetActionReflect(RenderNotes(ExamplePieces), Skill, 10) == 0.25
    ensures GetActionReflect(RenderNotes(ExamplePieces), SkillType, 1) == 0.05
  {
    ExampleTags();
    ExampleMatches();
    LookupNotes(ExamplePieces, Skill, 10);
    LookupNotes(ExamplePieces, SkillType, 1);
    assert Times(1, 0.25) == 0.25;
    assert Times(1, 0.05) == 0.05;
  }

  lemma ExampleActionOnPieces()
    ensures ActionReflect(RenderNotes(ExamplePieces), Action(true, 10, [1])) == 0.30
  {
    var notes := RenderNotes(ExamplePieces);
    ExampleLookups();
    var lookup := i => GetActionReflect(notes, SkillType, i);
    InjectTypesIsSum(0.0, lookup, [1]);
    assert TypeSum(lookup, [1]) == lookup(1) + TypeSum(lookup, []);
  }

  /**
   * Skill 10 of skill type 1 against notes carrying a skill tag, flavour text
   * and a skill-type tag: 0.25 for the skill plus 0.05 for its type.
   */
  lemma ExampleAction()
    ensures ActionReflect("<SKILL REFLECT 10: +25%>" + " some flavor text " + "<SKILL TYPE REFLECT 1: +5%>",
                          Action(true, 10, [1])) == 0.30
  {
    ExampleRender();
    ExampleActionOnPieces();
  }
}
