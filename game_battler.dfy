/**
 * The reflect-chance resolver the plugin adds to `Game_Battler`.
 *
 * A battler's notes (the text the host aggregates from its actor or enemy,
 * class, equipment and states) may hold tags `<SKILL REFLECT id: +n%>`,
 * `<ITEM REFLECT id: n>`, `<SKILL TYPE REFLECT id: -n%>`, ... in any letter
 * case. An action's extra reflect chance is the lookup for its own id plus
 * the lookups for each of its type ids; `item_mrf` adds that to the base rate
 * and records whether the extra chance alone beat the base.
 */
module GameBattler {
  import opened Ascii

  datatype Option<T> = None | Some(value: T)

  /** The four tag categories the resolver asks for. */
  datatype Category = Skill | Item | SkillType | ItemType

  function CategoryName(c: Category): string
  {
    match c
    case Skill => "SKILL"
    case Item => "ITEM"
    case SkillType => "SKILL TYPE"
    case ItemType => "ITEM TYPE"
  }

  /** The literal part of the pattern `<TYPE REFLECT id: ([+-]?\d+)%?>` before the capture. */
  function TagHead(c: Category, id: int): string
  {
    "<" + CategoryName(c) + " REFLECT " + IntText(id) + ": "
  }

  /** `s` begins with `head`, letters compared without regard to ASCII case (the `/i` flag). */
  predicate StartsWithFolded(s: string, head: string)
  {
    |head| <= |s| && forall k :: 0 <= k < |head| ==> Upper(s[k]) == Upper(head[k])
  }

  /** The end of the run of digits starting at `i`: what a greedy `\d*` consumes. */
  function DigitsEnd(s: string, i: nat): (j: nat)
    requires i <= |s|
    ensures i <= j <= |s|
    ensures forall k :: i <= k < j ==> IsDigit(s[k])
    ensures j < |s| ==> !IsDigit(s[j])
    decreases |s| - i
  {
    if i < |s| && IsDigit(s[i]) then DigitsEnd(s, i + 1) else i
  }

  /**
   * Matches `([+-]?\d+)%?>` at position `q` of `s`. On success gives the end
   * of the match and the captured numeral. The pattern leaves no choice to
   * backtracking: the sign is taken when present, the digit run is maximal,
   * and `%` is taken when present.
   */
  function MatchNumeral(s: string, q: nat): (r: Option<(nat, string)>)
    requires q <= |s|
    ensures r.Some? ==> q < r.value.0 <= |s| && s[r.value.0 - 1] == '>'
    ensures r.Some? ==> IsSignedDecimal(r.value.1)
    ensures r.Some? ==> q + |r.value.1| < r.value.0 && s[q..q + |r.value.1|] == r.value.1
    ensures r.Some? ==> (r.value.0 == q + |r.value.1| + 1
                         || (r.value.0 == q + |r.value.1| + 2 && s[q + |r.value.1|] == '%'))
  {
    var q1 := if q < |s| && (s[q] == '+' || s[q] == '-') then q + 1 else q;
    var r := DigitsEnd(s, q1);
    var r1 := if r < |s| && s[r] == '%' then r + 1 else r;
    if q1 < r && r1 < |s| && s[r1] == '>' then
      assert s[q..r][1..] == s[q1..r] || s[q..r] == s[q1..r];
      Some((r1 + 1, s[q..r]))
    else None
  }

  /**
   * Matches the pattern whose literal head is `head`, followed by
   * `([+-]?\d+)%?>`, at the very start of `s`: on success, the length of the
   * match and the captured numeral.
   */
  function MatchTag(s: string, head: string): (r: Option<(nat, string)>)
    ensures r.Some? ==> |head| < r.value.0 <= |s| && s[r.value.0 - 1] == '>'
    ensures r.Some? ==> StartsWithFolded(s, head) && IsSignedDecimal(r.value.1)
    ensures r.Some? ==> |head| + |r.value.1| < r.value.0 && s[|head|..|head| + |r.value.1|] == r.value.1
    ensures r.Some? ==> (r.value.0 == |head| + |r.value.1| + 1
                         || (r.value.0 == |head| + |r.value.1| + 2 && s[|head| + |r.value.1|] == '%'))
  {
    if StartsWithFolded(s, head) then MatchNumeral(s, |head|) else None
  }

  /**
   * `notes.scan(regexp)` for the pattern with literal head `head`: the
   * captures of the leftmost non-overlapping matches, scanning left to right;
   * after a match the search resumes right after it, otherwise one character
   * further on.
   */
  function Scan(s: string, head: string): (caps: seq<string>)
    ensures |caps| <= |s|
    ensures forall k :: 0 <= k < |caps| ==> IsSignedDecimal(caps[k])
    decreases |s|
  {
    if s == [] then []
    else
      match MatchTag(s, head)
      case Some((n, cap)) => [cap] + Scan(s[n..], head)
      case None => Scan(s[1..], head)
  }

  /**
   * `inject(0.0) {|r| r += ($1.to_i / 100.0) }`: the block names only the
   * accumulator, so every step adds the same `$1`, the capture of the last
   * match `scan` made, whatever element it is given.
   */
  function InjectLastCapture(acc: real, elems: seq<string>, dollar1: int): real
    decreases |elems|
  {
    if elems == [] then acc else InjectLastCapture(acc + dollar1 as real / 100.0, elems[1..], dollar1)
  }

  /**
   * `$1.to_i` once the scan is over: the value of the last capture. With no
   * match `$1` is nil, but then the block never runs; 0 stands in for it.
   */
  function LastCaptureValue(caps: seq<string>): int
    requires forall k :: 0 <= k < |caps| ==> IsSignedDecimal(caps[k])
  {
    if caps == [] then 0 else ToI(caps[|caps| - 1])
  }

  /** `get_action_reflect(type, id)`: the reflect chance the notes grant for one category and id. */
  function GetActionReflect(notes: string, c: Category, id: int): real
  {
    var caps := Scan(notes, TagHead(c, id));
    InjectLastCapture(0.0, caps, LastCaptureValue(caps))
  }

  /** What the resolver needs of a skill or item: `skill?`, `id` and `type_set`. */
  datatype Action = Action(isSkill: bool, id: int, typeSet: seq<int>)

  function ItemCategory(a: Action): Category { if a.isSkill then Skill else Item }

  function TypeCategory(a: Action): Category { if a.isSkill then SkillType else ItemType }

  /** `item_reflect(item)`: the lookup for the action's own id. */
  function ItemReflect(notes: string, a: Action): real
  {
    GetActionReflect(notes, ItemCategory(a), a.id)
  }

  /**
   * `type_set.inject(acc) {|r, i| r += lookup(i) }`, left to right; the block
   * is `lookup`, which `item_type_reflect` makes a lookup of one type category.
   */
  function InjectTypes(acc: real, lookup: int -> real, types: seq<int>): real
    decreases |types|
  {
    if types == [] then acc else InjectTypes(acc + lookup(types[0]), lookup, types[1..])
  }

  /** `item_type_reflect(item)`: the lookups for the action's type ids. */
  function ItemTypeReflect(notes: string, a: Action): real
  {
    InjectTypes(0.0, i => GetActionReflect(notes, TypeCategory(a), i), a.typeSet)
  }

  /** `action_reflect(item)`: the whole extra reflect chance of an action. */
  function ActionReflect(notes: string, a: Action): real
  {
    ItemReflect(notes, a) + ItemTypeReflect(notes, a)
  }

  /** The part of `Game_Battler` the plugin reads and writes. */
  class Battler {
    /** What `get_all_notes` returns for this battler; the host keeps it current. */
    var notes: string
    /** `@action_reflected`: whether the last `item_mrf` call found a winning extra chance. */
    var actionReflected: bool

    constructor (notes: string)
      ensures this.notes == notes && !actionReflected
    {
      this.notes := notes;
      actionReflected := false;
    }

    /**
     * `item_mrf(user, item)`: the rate `base` (what the aliased host method
     * returns) plus the action's extra reflect chance; the flag is set to
     * whether the extra chance strictly exceeds `base`.
     */
    method ItemMrf(base: real, isSkill: bool, id: int, typeSet: seq<int>) returns (rate: real)
      modifies this`actionReflected
      ensures rate == base + ActionReflect(notes, Action(isSkill, id, typeSet))
      ensures actionReflected <==> ActionReflect(notes, Action(isSkill, id, typeSet)) > base
    {
      var action := ActionReflect(notes, Action(isSkill, id, typeSet));
      actionReflected := action > base;
      rate := base + action;
    }
  }
}
