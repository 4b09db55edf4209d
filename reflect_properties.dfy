/**
 * Properties of the reflect-chance lookup and resolver.
 *
 * Notes are described as a sequence of pieces: free text without `<`, and
 * well-formed tags as the plugin documents them (`<skill reflect x: +y%>`
 * and its siblings, sign and `%` optional). Over such notes the scan finds
 * exactly the tags of the queried category and id, in order; over any notes
 * it ignores letter case, and a lookup equals the number of matches times
 * the value of the last one.
 */
module ReflectProperties {
  import opened Ascii
  import opened GameBattler

  datatype Sign = Plus | Minus | Unsigned

  /** A configuration tag `<CATEGORY REFLECT id: ±digits%>`. */
  datatype Tag = Tag(category: Category, id: int, sign: Sign, digits: string, percent: bool)

  predicate WellFormed(t: Tag) { |t.digits| > 0 && AllDigits(t.digits) }

  function SignText(s: Sign): string
  {
    match s
    case Plus => "+"
    case Minus => "-"
    case Unsigned => ""
  }

  /** The part of a tag the pattern captures. */
  function Numeral(t: Tag): string { SignText(t.sign) + t.digits }

  function Render(t: Tag): string
  {
    TagHead(t.category, t.id) + Numeral(t) + Closing(t)
  }

  /** The signed percentage a tag states. */
  function Value(t: Tag): int
    requires WellFormed(t)
  {
    if t.sign == Minus then -(ParseNat(t.digits) as int) else ParseNat(t.digits)
  }

  datatype Piece = Text(text: string) | TagPiece(tag: Tag)

  predicate NoOpen(s: string) { forall k :: 0 <= k < |s| ==> s[k] != '<' }

  predicate WellFormedPiece(p: Piece)
  {
    match p
    case Text(s) => NoOpen(s)
    case TagPiece(t) => WellFormed(t)
  }

  predicate WellFormedNotes(ps: seq<Piece>) { forall k :: 0 <= k < |ps| ==> WellFormedPiece(ps[k]) }

  function RenderPiece(p: Piece): string
  {
    match p
    case Text(s) => s
    case TagPiece(t) => Render(t)
  }

  function RenderNotes(ps: seq<Piece>): string
    decreases |ps|
  {
    if ps == [] then "" else RenderPiece(ps[0]) + RenderNotes(ps[1..])
  }

  /** The tags among the pieces that belong to category `c` and id `id`, in order. */
  function Matching(ps: seq<Piece>, c: Category, id: int): seq<Tag>
    decreases |ps|
  {
    if ps == [] then []
    else if ps[0].TagPiece? && ps[0].tag.category == c && ps[0].tag.id == id then
      [ps[0].tag] + Matching(ps[1..], c, id)
    else Matching(ps[1..], c, id)
  }

  function Numerals(ts: seq<Tag>): seq<string>
  {
    seq(|ts|, k requires 0 <= k < |ts| => Numeral(ts[k]))
  }

  function Sum(vs: seq<int>): int
    decreases |vs|
  {
    if vs == [] then 0 else vs[0] + Sum(vs[1..])
  }

  function Values(ts: seq<Tag>): seq<int>
    requires forall k :: 0 <= k < |ts| ==> WellFormed(ts[k])
  {
    seq(|ts|, k requires 0 <= k < |ts| => Value(ts[k]))
  }

  // ---------------------------------------------------------------- the recogniser

  /** What the pattern captures from a well-formed tag reads back as the tag's value. */
  lemma NumeralValue(t: Tag)
    requires WellFormed(t)
    ensures IsSignedDecimal(Numeral(t)) && ToI(Numeral(t)) == Value(t)
  {
    var n := Numeral(t);
    if t.sign == Unsigned {
      assert n == t.digits;
    } else {
      assert n[1..] == t.digits;
    }
  }

  /** The end of a tag: the optional `%` and the closing `>`. */
  function Closing(t: Tag): string { (if t.percent then "%" else "") + ">" }

  /** `DigitsEnd` stops exactly at the first non-digit at or after `i`. */
  lemma {:induction false} DigitsEndAt(s: string, i: nat, j: nat)
    requires i <= j <= |s|
    requires forall k :: i <= k < j ==> IsDigit(s[k])
    requires j == |s| || !IsDigit(s[j])
    ensures DigitsEnd(s, i) == j
    decreases j - i
  {
    if i < j {
      DigitsEndAt(s, i + 1, j);
    }
  }

  /** The numeral and closing of a well-formed tag are matched as a whole by `([+-]?\d+)%?>`. */
  lemma MatchNumeralRendered(t: Tag, head: string, rest: string)
    requires WellFormed(t)
    ensures MatchNumeral(head + Numeral(t) + Closing(t) + rest, |head|)
         == Some((|head + Numeral(t) + Closing(t)|, Numeral(t)))
  {
    var s := head + Numeral(t) + Closing(t) + rest;
    var q := |head|;
    var q1 := q + |SignText(t.sign)|;
    var r := q + |Numeral(t)|;
    assert s[q..r] == Numeral(t);
    assert q < |s| && (s[q] == '+' || s[q] == '-') <==> t.sign != Unsigned by {
      if t.sign == Unsigned {
        assert s[q] == t.digits[0];
      }
    }
    forall k | q1 <= k < r
      ensures IsDigit(s[k])
    {
      assert s[k] == t.digits[k - q1];
    }
    assert s[r] == Closing(t)[0];
    DigitsEndAt(s, q1, r);
    if t.percent {
      assert s[r + 1] == '>';
    } else {
      assert s[r] == '>';
    }
  }

  /** A tag written out is matched by the query for its own category and id, as a whole. */
  lemma MatchRendered(t: Tag, rest: string)
    requires WellFormed(t)
    ensures MatchTag(Render(t) + rest, TagHead(t.category, t.id)) == Some((|Render(t)|, Numeral(t)))
  {
    var head := TagHead(t.category, t.id);
    var s := Render(t) + rest;
    assert s == head + Numeral(t) + Closing(t) + rest;
    forall k | 0 <= k < |head|
      ensures Upper(s[k]) == Upper(head[k])
    {
      assert s[k] == head[k];
    }
    MatchNumeralRendered(t, head, rest);
  }

  /** Letters of two strings agree up to ASCII case wherever both strings have a character. */
  predicate FoldedAgree(a: string, b: string)
  {
    forall k :: 0 <= k < |a| && k < |b| ==> Upper(a[k]) == Upper(b[k])
  }

  /** The heads of queries for different categories differ, up to case, early on. */
  lemma CategoryHeadsDiffer(c1: Category, i1: int, c2: Category, i2: int)
    requires c1 != c2
    ensures !FoldedAgree(TagHead(c1, i1), TagHead(c2, i2))
  {
    var h1, h2 := TagHead(c1, i1), TagHead(c2, i2);
    var k := if CategoryName(c1)[0] != CategoryName(c2)[0] then 1
             else if c1 == Skill || c1 == SkillType then 7 else 6;
    assert Upper(h1[k]) != Upper(h2[k]);
  }

  /** Agreement up to case survives dropping a common prefix. */
  lemma FoldedAgreeSuffix(pre: string, a: string, b: string)
    requires FoldedAgree(pre + a, pre + b)
    ensures FoldedAgree(a, b)
  {
    forall k | 0 <= k < |a| && k < |b| ensures Upper(a[k]) == Upper(b[k]) {
      assert (pre + a)[|pre| + k] == a[k] && (pre + b)[|pre| + k] == b[k];
    }
  }

  /** Two texts free of `:` and lower-case letters that agree up to case once `: ` follows each are equal. */
  lemma ColonDelimited(a: string, b: string)
    requires forall k :: 0 <= k < |a| ==> a[k] != ':' && !IsLower(a[k]) && !IsUpper(a[k])
    requires forall k :: 0 <= k < |b| ==> b[k] != ':' && !IsLower(b[k]) && !IsUpper(b[k])
    requires FoldedAgree(a + ": ", b + ": ")
    ensures a == b
  {
    var x1, x2 := a + ": ", b + ": ";
    var m := if |a| < |b| then |a| else |b|;
    assert Upper(x1[m]) == Upper(x2[m]);
    assert x1[m] == ':' <==> m == |a|;
    assert x2[m] == ':' <==> m == |b|;
    forall k | 0 <= k < |a|
      ensures a[k] == b[k]
    {
      assert x1[k] == a[k] && x2[k] == b[k];
      UpperFixesNonLetter(a[k], b[k]);
    }
  }

  /**
   * Within one category the heads agree only for the same id: the `:` after
   * the id rules out ids whose text is a prefix of the other's (5 against 50).
   */
  lemma IdHeadsDiffer(c: Category, i1: int, i2: int)
    requires FoldedAgree(TagHead(c, i1), TagHead(c, i2))
    ensures i1 == i2
  {
    var pre := "<" + CategoryName(c) + " REFLECT ";
    var a, b := IntText(i1), IntText(i2);
    assert TagHead(c, i1) == pre + (a + ": ");
    assert TagHead(c, i2) == pre + (b + ": ");
    FoldedAgreeSuffix(pre, a + ": ", b + ": ");
    ColonDelimited(a, b);
    IntTextInjective(i1, i2);
  }

  /** The tag whose numeral is the capture `cap`, with `%` written or not. */
  function TagOfCapture(c: Category, id: int, cap: string, percent: bool): (t: Tag)
    requires IsSignedDecimal(cap)
    ensures WellFormed(t) && t.category == c && t.id == id && t.percent == percent
    ensures Numeral(t) == cap
  {
    if cap[0] == '+' then
      assert "+" + cap[1..] == cap;
      Tag(c, id, Plus, cap[1..], percent)
    else if cap[0] == '-' then
      assert "-" + cap[1..] == cap;
      Tag(c, id, Minus, cap[1..], percent)
    else
      assert "" + cap == cap;
      Tag(c, id, Unsigned, cap, percent)
  }

  /** The tag a match of the query for `c` and `id` at the start of `s` reads. */
  function MatchedTag(s: string, c: Category, id: int): Tag
    requires MatchTag(s, TagHead(c, id)).Some?
  {
    var m := MatchTag(s, TagHead(c, id)).value;
    TagOfCapture(c, id, m.1, m.0 == |TagHead(c, id)| + |m.1| + 2)
  }

  /** What a match covers is, up to case, the head, the capture, an optional `%` and `>`. */
  lemma MatchCovers(s: string, head: string)
    requires MatchTag(s, head).Some?
    ensures SameUpToCase(s[..MatchTag(s, head).value.0],
                         head + MatchTag(s, head).value.1
                         + (if MatchTag(s, head).value.0 == |head| + |MatchTag(s, head).value.1| + 2 then "%" else "")
                         + ">")
  {
    var n, cap := MatchTag(s, head).value.0, MatchTag(s, head).value.1;
    var pct := n == |head| + |cap| + 2;
    var w := head + cap + (if pct then "%" else "") + ">";
    assert |w| == n;
    forall k | 0 <= k < n ensures Upper(s[..n][k]) == Upper(w[k]) {
      if k < |head| {
        assert w[k] == head[k];
      } else if k < |head| + |cap| {
        assert w[k] == cap[k - |head|] == s[k];
      } else if k < n - 1 {
        assert w[k] == '%' == s[k];
      } else {
        assert w[k] == '>' == s[k];
      }
    }
  }

  /**
   * Every match of the query for `c` and `id` reads, up to case, a
   * well-formed tag of category `c` and id `id`, whose numeral is the capture.
   */
  lemma MatchIsRendered(s: string, c: Category, id: int)
    requires MatchTag(s, TagHead(c, id)).Some?
    ensures WellFormed(MatchedTag(s, c, id))
    ensures MatchedTag(s, c, id).category == c && MatchedTag(s, c, id).id == id
    ensures Numeral(MatchedTag(s, c, id)) == MatchTag(s, TagHead(c, id)).value.1
    ensures SameUpToCase(s[..MatchTag(s, TagHead(c, id)).value.0], Render(MatchedTag(s, c, id)))
  {
    var head := TagHead(c, id);
    var t := MatchedTag(s, c, id);
    MatchCovers(s, head);
    assert Render(t) == head + Numeral(t) + Closing(t);
    assert Closing(t) == (if t.percent then "%" else "") + ">";
  }

  /** At one position at most one category and id can match: the queries are disjoint. */
  lemma MatchExclusive(s: string, c1: Category, i1: int, c2: Category, i2: int)
    requires MatchTag(s, TagHead(c1, i1)).Some? && MatchTag(s, TagHead(c2, i2)).Some?
    ensures c1 == c2 && i1 == i2
  {
    var h1, h2 := TagHead(c1, i1), TagHead(c2, i2);
    assert StartsWithFolded(s, h1) && StartsWithFolded(s, h2);
    assert FoldedAgree(h1, h2);
    if c1 != c2 {
      CategoryHeadsDiffer(c1, i1, c2, i2);
      assert false;
    }
    IdHeadsDiffer(c1, i1, i2);
  }

  lemma NoOpenAppend(a: string, b: string)
    requires NoOpen(a) && NoOpen(b)
    ensures NoOpen(a + b)
  {
    forall k | 0 <= k < |a + b| ensures (a + b)[k] != '<' {
      if k < |a| {
        assert (a + b)[k] == a[k];
      } else {
        assert (a + b)[k] == b[k - |a|];
      }
    }
  }

  /** A written tag holds no `<` after its first character, so no match can begin inside it. */
  lemma RenderedOpensOnce(t: Tag)
    requires WellFormed(t)
    ensures NoOpen(Render(t)[1..])
  {
    var name := CategoryName(t.category);
    var middle := name + " REFLECT " + IntText(t.id) + ": ";
    assert NoOpen(name);
    assert NoOpen(middle);
    assert NoOpen(Numeral(t));
    NoOpenAppend(middle, Numeral(t));
    NoOpenAppend(middle + Numeral(t), Closing(t));
    assert Render(t) == "<" + (middle + Numeral(t) + Closing(t));
  }

  /** Text without `<` cannot start a match, so the scan passes over it. */
  lemma {:induction false} ScanSkipsText(x: string, y: string, head: string)
    requires NoOpen(x)
    requires |head| > 0 && head[0] == '<'
    ensures Scan(x + y, head) == Scan(y, head)
    decreases |x|
  {
    if x == [] {
      assert x + y == y;
    } else {
      assert (x + y)[0] == x[0] != '<';
      assert MatchTag(x + y, head).None?;
      assert (x + y)[1..] == x[1..] + y;
      ScanSkipsText(x[1..], y, head);
    }
  }

  /** A tag at the front of the notes yields its numeral when it is the one queried. */
  lemma ScanRenderedTag(t: Tag, rest: string)
    requires WellFormed(t)
    ensures Scan(Render(t) + rest, TagHead(t.category, t.id)) == [Numeral(t)] + Scan(rest, TagHead(t.category, t.id))
  {
    MatchRendered(t, rest);
    assert (Render(t) + rest)[|Render(t)|..] == rest;
  }

  /** A tag of another category or id at the front of the notes is passed over. */
  lemma ScanRenderedOtherTag(t: Tag, rest: string, c: Category, id: int)
    requires WellFormed(t)
    requires t.category != c || t.id != id
    ensures Scan(Render(t) + rest, TagHead(c, id)) == Scan(rest, TagHead(c, id))
  {
    var s := Render(t) + rest;
    if MatchTag(s, TagHead(c, id)).Some? {
      MatchRendered(t, rest);
      MatchExclusive(s, c, id, t.category, t.id);
      assert false;
    }
    RenderedOpensOnce(t);
    assert s[1..] == Render(t)[1..] + rest;
    ScanSkipsText(Render(t)[1..], rest, TagHead(c, id));
  }

  lemma WellFormedNotesTail(ps: seq<Piece>)
    requires WellFormedNotes(ps) && ps != []
    ensures WellFormedPiece(ps[0]) && WellFormedNotes(ps[1..])
  {
    assert WellFormedPiece(ps[0]);
    forall k | 0 <= k < |ps| - 1
      ensures WellFormedPiece(ps[1..][k])
    {
      assert ps[1..][k] == ps[k + 1];
    }
  }

  /** The numerals a piece contributes to the scan for category `c` and id `id`. */
  function PieceNumerals(p: Piece, c: Category, id: int): seq<string>
  {
    if p.TagPiece? && p.tag.category == c && p.tag.id == id then [Numeral(p.tag)] else []
  }

  /** A well-formed piece at the front of the notes is scanned on its own. */
  lemma ScanPiece(p: Piece, rest: string, c: Category, id: int)
    requires WellFormedPiece(p)
    ensures Scan(RenderPiece(p) + rest, TagHead(c, id)) == PieceNumerals(p, c, id) + Scan(rest, TagHead(c, id))
  {
    match p
    case Text(x) =>
      ScanSkipsText(x, rest, TagHead(c, id));
    case TagPiece(t) =>
      if t.category == c && t.id == id {
        ScanRenderedTag(t, rest);
      } else {
        ScanRenderedOtherTag(t, rest, c, id);
      }
  }

  lemma NumeralsCons(t: Tag, ts: seq<Tag>)
    ensures Numerals([t] + ts) == [Numeral(t)] + Numerals(ts)
  {
  }

  /** Over well-formed notes the scan captures the numerals of exactly the queried tags, in order. */
  lemma {:induction false} ScanNotes(ps: seq<Piece>, c: Category, id: int)
    requires WellFormedNotes(ps)
    ensures Scan(RenderNotes(ps), TagHead(c, id)) == Numerals(Matching(ps, c, id))
    decreases |ps|
  {
    if ps != [] {
      WellFormedNotesTail(ps);
      ScanNotes(ps[1..], c, id);
      ScanPiece(ps[0], RenderNotes(ps[1..]), c, id);
      if ps[0].TagPiece? && ps[0].tag.category == c && ps[0].tag.id == id {
        NumeralsCons(ps[0].tag, Matching(ps[1..], c, id));
      }
    }
  }

  /** The scan finds nothing exactly when the pattern matches at no position of the notes. */
  lemma {:induction false} ScanEmptyIff(s: string, c: Category, id: int)
    ensures Scan(s, TagHead(c, id)) == [] <==> forall k :: 0 <= k < |s| ==> MatchTag(s[k..], TagHead(c, id)).None?
    decreases |s|
  {
    if s != [] {
      assert s[0..] == s;
      if MatchTag(s, TagHead(c, id)).None? {
        ScanEmptyIff(s[1..], c, id);
        forall k | 1 <= k < |s|
          ensures s[1..][k - 1..] == s[k..]
        {
        }
      }
    }
  }

  /** Two strings equal up to ASCII case: same length, same upcase at every position. */
  predicate SameUpToCase(s1: string, s2: string)
  {
    |s1| == |s2| && forall k :: 0 <= k < |s1| ==> Upper(s1[k]) == Upper(s2[k])
  }

  /** At any position, strings equal up to case hold a given non-letter together or not at all. */
  lemma NonLetterAt(s1: string, s2: string, k: nat, ch: char)
    requires SameUpToCase(s1, s2) && k < |s1|
    requires !IsLower(ch) && !IsUpper(ch)
    ensures s1[k] == ch <==> s2[k] == ch
  {
    if s1[k] == ch {
      UpperFixesNonLetter(ch, s2[k]);
    }
    if s2[k] == ch {
      UpperFixesNonLetter(ch, s1[k]);
    }
  }

  /** `([+-]?\d+)%?>` holds no letter, so it matches the same way in strings equal up to case. */
  lemma MatchNumeralFolded(s1: string, s2: string, q: nat)
    requires SameUpToCase(s1, s2) && q <= |s1|
    ensures MatchNumeral(s1, q) == MatchNumeral(s2, q)
  {
    if q < |s1| {
      NonLetterAt(s1, s2, q, '+');
      NonLetterAt(s1, s2, q, '-');
    }
    var q1 := if q < |s1| && (s1[q] == '+' || s1[q] == '-') then q + 1 else q;
    var r := DigitsEnd(s1, q1);
    forall k | q <= k < r ensures s2[k] == s1[k] {
      assert !IsLower(s1[k]) && !IsUpper(s1[k]);
      UpperFixesNonLetter(s1[k], s2[k]);
    }
    if r < |s1| {
      assert !IsDigit(s1[r]);
      if IsDigit(s2[r]) {
        UpperFixesNonLetter(s2[r], s1[r]);
      }
      NonLetterAt(s1, s2, r, '%');
    }
    DigitsEndAt(s2, q1, r);
    var r1 := if r < |s1| && s1[r] == '%' then r + 1 else r;
    if r1 < |s1| {
      NonLetterAt(s1, s2, r1, '>');
    }
    MatchNumeralSteps(s1, q, q1, r, r1);
    MatchNumeralSteps(s2, q, q1, r, r1);
    assert s1[q..r] == s2[q..r];
  }

  /** `MatchNumeral` in terms of where the sign, the digit run and the `%` end. */
  lemma MatchNumeralSteps(s: string, q: nat, q1: nat, r: nat, r1: nat)
    requires q <= |s|
    requires q1 == if q < |s| && (s[q] == '+' || s[q] == '-') then q + 1 else q
    requires r == DigitsEnd(s, q1)
    requires r1 == if r < |s| && s[r] == '%' then r + 1 else r
    ensures MatchNumeral(s, q) == if q1 < r && r1 < |s| && s[r1] == '>' then Some((r1 + 1, s[q..r])) else None
  {
  }

  /** Upcasing the notes changes nothing the pattern looks at but letters. */
  lemma MatchFolded(s1: string, s2: string, c: Category, id: int)
    requires SameUpToCase(s1, s2)
    ensures MatchTag(s1, TagHead(c, id)) == MatchTag(s2, TagHead(c, id))
  {
    var head := TagHead(c, id);
    assert StartsWithFolded(s1, head) <==> StartsWithFolded(s2, head);
    if StartsWithFolded(s1, head) {
      MatchNumeralFolded(s1, s2, |head|);
    }
  }

  /** The scan is case-insensitive: notes equal up to ASCII case give the same captures. */
  lemma {:induction false} ScanFolded(s1: string, s2: string, c: Category, id: int)
    requires SameUpToCase(s1, s2)
    ensures Scan(s1, TagHead(c, id)) == Scan(s2, TagHead(c, id))
    decreases |s1|
  {
    if s1 != [] {
      MatchFolded(s1, s2, c, id);
      var n := match MatchTag(s1, TagHead(c, id)) case Some((n, _)) => n case None => 1;
      assert SameUpToCase(s1[n..], s2[n..]) by {
        forall k | 0 <= k < |s1| - n
          ensures Upper(s1[n..][k]) == Upper(s2[n..][k])
        {
          assert s1[n..][k] == s1[n + k] && s2[n..][k] == s2[n + k];
        }
      }
      ScanFolded(s1[n..], s2[n..], c, id);
    }
  }

  // ---------------------------------------------------------------- the lookup

  /** `n` copies of `x` added up. */
  function Times(n: nat, x: real): real
    decreases n
  {
    if n == 0 then 0.0 else Times(n - 1, x) + x
  }

  lemma {:induction false} TimesIsProduct(n: nat, x: real)
    ensures Times(n, x) == n as real * x
    decreases n
  {
    if n > 0 {
      TimesIsProduct(n - 1, x);
      assert n as real * x == (n - 1) as real * x + x;
    }
  }

  /** The fold adds the same `$1` once per element: count times value. */
  lemma {:induction false} InjectCountsLast(acc: real, elems: seq<string>, dollar1: int)
    ensures InjectLastCapture(acc, elems, dollar1) == acc + Times(|elems|, dollar1 as real / 100.0)
    decreases |elems|
  {
    if elems != [] {
      InjectCountsLast(acc + dollar1 as real / 100.0, elems[1..], dollar1);
    }
  }

  /**
   * The lookup is k times the last captured value over 100, k the number of
   * matches (so zero without a match) — not the sum of the captured values.
   */
  lemma LookupCountTimesLast(notes: string, c: Category, id: int)
    ensures GetActionReflect(notes, c, id)
         == Times(|Scan(notes, TagHead(c, id))|, LastCaptureValue(Scan(notes, TagHead(c, id))) as real / 100.0)
  {
    LookupIsFold(notes, c, id);
    InjectOfCaptures(Scan(notes, TagHead(c, id)));
  }

  lemma LookupIsFold(notes: string, c: Category, id: int)
    ensures forall k :: 0 <= k < |Scan(notes, TagHead(c, id))| ==> IsSignedDecimal(Scan(notes, TagHead(c, id))[k])
    ensures GetActionReflect(notes, c, id)
         == InjectLastCapture(0.0, Scan(notes, TagHead(c, id)), LastCaptureValue(Scan(notes, TagHead(c, id))))
  {
  }

  /** The fold over any captures, reading `$1` as the last of them, is their count times its value over 100. */
  lemma InjectOfCaptures(caps: seq<string>)
    requires forall k :: 0 <= k < |caps| ==> IsSignedDecimal(caps[k])
    ensures InjectLastCapture(0.0, caps, LastCaptureValue(caps)) == Times(|caps|, LastCaptureValue(caps) as real / 100.0)
  {
    InjectCountsLast(0.0, caps, LastCaptureValue(caps));
  }

  /** Notes with no substring matching the query's pattern contribute nothing. */
  lemma LookupWithoutMatch(notes: string, c: Category, id: int)
    requires forall k :: 0 <= k < |notes| ==> MatchTag(notes[k..], TagHead(c, id)).None?
    ensures GetActionReflect(notes, c, id) == 0.0
  {
    ScanEmptyIff(notes, c, id);
  }

  /** The lookup ignores ASCII letter case. */
  lemma LookupFolded(s1: string, s2: string, c: Category, id: int)
    requires SameUpToCase(s1, s2)
    ensures GetActionReflect(s1, c, id) == GetActionReflect(s2, c, id)
  {
    ScanFolded(s1, s2, c, id);
  }

  /** Captures that are the numerals of `ts`: the last capture's value is the last tag's. */
  lemma LastOfNumerals(caps: seq<string>, ts: seq<Tag>)
    requires forall k :: 0 <= k < |ts| ==> WellFormed(ts[k])
    requires caps == Numerals(ts)
    ensures forall k :: 0 <= k < |caps| ==> IsSignedDecimal(caps[k])
    ensures |caps| == |ts|
    ensures ts != [] ==> LastCaptureValue(caps) == Value(ts[|ts| - 1])
  {
    forall k | 0 <= k < |ts| ensures IsSignedDecimal(caps[k]) {
      NumeralValue(ts[k]);
    }
    if ts != [] {
      NumeralValue(ts[|ts| - 1]);
    }
  }

  /** What the lookup yields for the tags `ts` it matched: their count times the last one's value, over 100. */
  function CountTimesLast(ts: seq<Tag>): real
    requires forall k :: 0 <= k < |ts| ==> WellFormed(ts[k])
  {
    if ts == [] then 0.0 else Times(|ts|, Value(ts[|ts| - 1]) as real / 100.0)
  }

  /** The fold over the numerals of `ts`, reading `$1` as the last of them, is `CountTimesLast(ts)`. */
  lemma InjectOfNumerals(caps: seq<string>, ts: seq<Tag>)
    requires forall k :: 0 <= k < |ts| ==> WellFormed(ts[k])
    requires caps == Numerals(ts)
    ensures forall k :: 0 <= k < |caps| ==> IsSignedDecimal(caps[k])
    ensures InjectLastCapture(0.0, caps, LastCaptureValue(caps)) == CountTimesLast(ts)
  {
    LastOfNumerals(caps, ts);
    InjectOfLast(caps, ts);
  }

  /** Captures as many as the tags, the last holding the last tag's value: the fold is `CountTimesLast(ts)`. */
  lemma InjectOfLast(caps: seq<string>, ts: seq<Tag>)
    requires forall k :: 0 <= k < |ts| ==> WellFormed(ts[k])
    requires forall k :: 0 <= k < |caps| ==> IsSignedDecimal(caps[k])
    requires |caps| == |ts|
    requires ts != [] ==> LastCaptureValue(caps) == Value(ts[|ts| - 1])
    ensures InjectLastCapture(0.0, caps, LastCaptureValue(caps)) == CountTimesLast(ts)
  {
    InjectCountsLast(0.0, caps, LastCaptureValue(caps));
    if ts != [] {
      TimesOfSameCount(|caps|, |ts|, LastCaptureValue(caps), Value(ts[|ts| - 1]));
    }
  }

  lemma TimesOfSameCount(n: nat, m: nat, d: int, v: int)
    requires n == m && d == v
    ensures 0.0 + Times(n, d as real / 100.0) == Times(m, v as real / 100.0)
  {
  }

  /** Notes whose captures are the numerals of `ts`: the lookup is `CountTimesLast(ts)`. */
  lemma LookupOfNumerals(notes: string, c: Category, id: int, ts: seq<Tag>)
    requires forall k :: 0 <= k < |ts| ==> WellFormed(ts[k])
    requires Scan(notes, TagHead(c, id)) == Numerals(ts)
    ensures GetActionReflect(notes, c, id) == CountTimesLast(ts)
  {
    InjectOfNumerals(Scan(notes, TagHead(c, id)), ts);
  }

  /** Over well-formed notes: k matching tags give k times the last one's value, over 100. */
  lemma LookupNotes(ps: seq<Piece>, c: Category, id: int)
    requires WellFormedNotes(ps)
    ensures forall k :: 0 <= k < |Matching(ps, c, id)| ==> WellFormed(Matching(ps, c, id)[k])
    ensures GetActionReflect(RenderNotes(ps), c, id) == CountTimesLast(Matching(ps, c, id))
  {
    MatchingWellFormed(ps, c, id);
    ScanNotes(ps, c, id);
    LookupOfNumerals(RenderNotes(ps), c, id, Matching(ps, c, id));
  }

  lemma {:induction false} MatchingWellFormed(ps: seq<Piece>, c: Category, id: int)
    requires WellFormedNotes(ps)
    ensures forall k :: 0 <= k < |Matching(ps, c, id)| ==> WellFormed(Matching(ps, c, id)[k])
    ensures forall k :: 0 <= k < |Matching(ps, c, id)| ==>
      Matching(ps, c, id)[k].category == c && Matching(ps, c, id)[k].id == id
    decreases |ps|
  {
    if ps != [] {
      WellFormedNotesTail(ps);
      MatchingWellFormed(ps[1..], c, id);
    }
  }

  /** Tags of another category, or of another id (5 against 15 or 50), never count. */
  lemma LookupIsolated(ps: seq<Piece>, c: Category, id: int)
    requires WellFormedNotes(ps)
    requires forall k :: 0 <= k < |ps| && ps[k].TagPiece? ==> ps[k].tag.category != c || ps[k].tag.id != id
    ensures GetActionReflect(RenderNotes(ps), c, id) == 0.0
  {
    NoneMatching(ps, c, id);
    LookupNotes(ps, c, id);
  }

  lemma {:induction false} NoneMatching(ps: seq<Piece>, c: Category, id: int)
    requires forall k :: 0 <= k < |ps| && ps[k].TagPiece? ==> ps[k].tag.category != c || ps[k].tag.id != id
    ensures Matching(ps, c, id) == []
    decreases |ps|
  {
    if ps != [] {
      assert ps[0].TagPiece? ==> ps[0].tag.category != c || ps[0].tag.id != id;
      forall k | 0 <= k < |ps| - 1 && ps[1..][k].TagPiece?
        ensures ps[1..][k].tag.category != c || ps[1..][k].tag.id != id
      {
        assert ps[1..][k] == ps[k + 1];
      }
      NoneMatching(ps[1..], c, id);
    }
  }

  /** One matching tag, anywhere among free text, contributes its own signed value over 100. */
  lemma LookupSingleTag(pre: string, t: Tag, post: string)
    requires WellFormed(t) && NoOpen(pre) && NoOpen(post)
    ensures GetActionReflect(pre + Render(t) + post, t.category, t.id) == Value(t) as real / 100.0
  {
    ScanSingleTag(pre, t, post);
    LookupOfOneNumeral(pre + Render(t) + post, t);
  }

  /** Text without `<` around one tag leaves the tag's numeral as the only capture. */
  lemma ScanSingleTag(pre: string, t: Tag, post: string)
    requires WellFormed(t) && NoOpen(pre) && NoOpen(post)
    ensures Scan(pre + Render(t) + post, TagHead(t.category, t.id)) == [Numeral(t)]
  {
    var head := TagHead(t.category, t.id);
    assert pre + Render(t) + post == pre + (Render(t) + post);
    ScanSkipsText(pre, Render(t) + post, head);
    ScanRenderedTag(t, post);
    ScanSkipsText(post, [], head);
    assert post + [] == post;
  }

  /** A single capture, the numeral of `t`, gives the value of `t` over 100. */
  lemma LookupOfOneNumeral(notes: string, t: Tag)
    requires WellFormed(t)
    requires Scan(notes, TagHead(t.category, t.id)) == [Numeral(t)]
    ensures GetActionReflect(notes, t.category, t.id) == Value(t) as real / 100.0
  {
    assert Numerals([t]) == [Numeral(t)];
    LookupOfNumerals(notes, t.category, t.id, [t]);
    assert CountTimesLast([t]) == Times(1, Value(t) as real / 100.0);
  }

  /** A sum of equal values, over 100, is the count times the value over 100. */
  lemma {:induction false} SumOfEqual(vs: seq<int>, v: int)
    requires forall k :: 0 <= k < |vs| ==> vs[k] == v
    ensures Sum(vs) as real / 100.0 == Times(|vs|, v as real / 100.0)
    decreases |vs|
  {
    if vs != [] {
      SumOfEqual(vs[1..], v);
    }
  }

  /** Tags that all state the same value: count times the last value is the sum of the values. */
  lemma CountTimesLastOfEqual(ts: seq<Tag>, v: int)
    requires forall k :: 0 <= k < |ts| ==> WellFormed(ts[k]) && Value(ts[k]) == v
    ensures CountTimesLast(ts) == Sum(Values(ts)) as real / 100.0
  {
    var vs := Values(ts);
    SumOfEqual(vs, v);
    if ts != [] {
      assert Value(ts[|ts| - 1]) == v;
    }
  }

  /** With all matching tags stating the same value the lookup is their sum over 100. */
  lemma LookupSumWhenEqual(ps: seq<Piece>, c: Category, id: int, v: int)
    requires WellFormedNotes(ps)
    requires forall k :: 0 <= k < |ps| && ps[k].TagPiece? && ps[k].tag.category == c && ps[k].tag.id == id
               ==> Value(ps[k].tag) == v
    ensures forall k :: 0 <= k < |Matching(ps, c, id)| ==> WellFormed(Matching(ps, c, id)[k])
    ensures GetActionReflect(RenderNotes(ps), c, id) == Sum(Values(Matching(ps, c, id))) as real / 100.0
  {
    LookupNotes(ps, c, id);
    MatchingValues(ps, c, id, v);
    CountTimesLastOfEqual(Matching(ps, c, id), v);
  }

  lemma {:induction false} MatchingValues(ps: seq<Piece>, c: Category, id: int, v: int)
    requires WellFormedNotes(ps)
    requires forall k :: 0 <= k < |ps| && ps[k].TagPiece? && ps[k].tag.category == c && ps[k].tag.id == id
               ==> Value(ps[k].tag) == v
    ensures forall k :: 0 <= k < |Matching(ps, c, id)| ==>
      WellFormed(Matching(ps, c, id)[k]) && Value(Matching(ps, c, id)[k]) == v
    decreases |ps|
  {
    if ps != [] {
      assert WellFormedPiece(ps[0]);
      forall k | 0 <= k < |ps| - 1
        ensures WellFormedPiece(ps[1..][k])
        ensures ps[1..][k].TagPiece? && ps[1..][k].tag.category == c && ps[1..][k].tag.id == id
                ==> Value(ps[1..][k].tag) == v
      {
        assert ps[1..][k] == ps[k + 1];
      }
      MatchingValues(ps[1..], c, id, v);
    }
  }

  /**
   * Two tags for the same action: the lookup is twice the second value, which
   * is the sum of the two exactly when they are equal.
   */
  lemma TwoTags(t1: Tag, t2: Tag)
    requires WellFormed(t1) && WellFormed(t2)
    requires t1.category == t2.category && t1.id == t2.id
    ensures GetActionReflect(Render(t1) + Render(t2), t1.category, t1.id) == 2.0 * Value(t2) as real / 100.0
    ensures (GetActionReflect(Render(t1) + Render(t2), t1.category, t1.id)
             == (Value(t1) + Value(t2)) as real / 100.0) <==> Value(t1) == Value(t2)
  {
    var ps := [TagPiece(t1), TagPiece(t2)];
    assert RenderNotes(ps) == Render(t1) + Render(t2) by {
      assert RenderNotes(ps[1..]) == Render(t2) + "";
    }
    assert Matching(ps, t1.category, t1.id) == [t1, t2] by {
      assert Matching(ps[1..], t1.category, t1.id) == [t2];
    }
    LookupNotes(ps, t1.category, t1.id);
    CountTimesLastPair(t1, t2);
  }

  lemma CountTimesLastPair(t1: Tag, t2: Tag)
    requires WellFormed(t1) && WellFormed(t2)
    ensures CountTimesLast([t1, t2]) == 2.0 * Value(t2) as real / 100.0
  {
    var x := Value(t2) as real / 100.0;
    assert Times(2, x) == Times(1, x) + x == Times(0, x) + x + x;
  }

  /** The head of a query for skill 5, spelled out. */
  lemma SkillFiveHead()
    ensures TagHead(Skill, 5) == "<SKILL REFLECT 5: "
  {
    assert NatText(5) == "5";
  }

  /** `<SKILL REFLECT 5: +20%>` and `<SKILL REFLECT 5: +15%>` as tags. */
  lemma TwentyAndFifteenTags()
    ensures WellFormed(Tag(Skill, 5, Plus, "20", true)) && WellFormed(Tag(Skill, 5, Plus, "15", true))
    ensures Render(Tag(Skill, 5, Plus, "20", true)) + Render(Tag(Skill, 5, Plus, "15", true))
         == "<SKILL REFLECT 5: +20%>" + "<SKILL REFLECT 5: +15%>"
    ensures Value(Tag(Skill, 5, Plus, "15", true)) == 15
  {
    SkillFiveHead();
    assert Render(Tag(Skill, 5, Plus, "20", true)) == "<SKILL REFLECT 5: +20%>";
    assert Render(Tag(Skill, 5, Plus, "15", true)) == "<SKILL REFLECT 5: +15%>";
    assert "15"[..1] == "1";
    assert ParseNat("15") == 15;
  }

  /** `<SKILL REFLECT 5: +20%>` and `<SKILL REFLECT 5: +15%>` give 0.30, not 0.35. */
  lemma TwentyAndFifteen()
    ensures GetActionReflect("<SKILL REFLECT 5: +20%>" + "<SKILL REFLECT 5: +15%>", Skill, 5) == 0.30
  {
    TwentyAndFifteenTags();
    TwoTags(Tag(Skill, 5, Plus, "20", true), Tag(Skill, 5, Plus, "15", true));
  }

  /** Three tags for the same action: the lookup is three times the last value. */
  lemma ThreeTags(t1: Tag, t2: Tag, t3: Tag)
    requires WellFormed(t1) && WellFormed(t2) && WellFormed(t3)
    requires t1.category == t2.category == t3.category && t1.id == t2.id == t3.id
    ensures GetActionReflect(Render(t1) + Render(t2) + Render(t3), t1.category, t1.id)
         == 3.0 * Value(t3) as real / 100.0
  {
    var ps := [TagPiece(t1), TagPiece(t2), TagPiece(t3)];
    ThreeTagPieces(t1, t2, t3);
    LookupNotes(ps, t1.category, t1.id);
    CountTimesLastTriple(t1, t2, t3);
  }

  lemma ThreeTagPieces(t1: Tag, t2: Tag, t3: Tag)
    requires t1.category == t2.category == t3.category && t1.id == t2.id == t3.id
    ensures RenderNotes([TagPiece(t1), TagPiece(t2), TagPiece(t3)]) == Render(t1) + Render(t2) + Render(t3)
    ensures Matching([TagPiece(t1), TagPiece(t2), TagPiece(t3)], t1.category, t1.id) == [t1, t2, t3]
  {
    var ps := [TagPiece(t1), TagPiece(t2), TagPiece(t3)];
    assert RenderNotes(ps[2..]) == Render(t3) + "";
    assert RenderNotes(ps[1..]) == Render(t2) + Render(t3);
    assert Matching(ps[2..], t1.category, t1.id) == [t3];
    assert Matching(ps[1..], t1.category, t1.id) == [t2, t3];
  }

  lemma CountTimesLastTriple(t1: Tag, t2: Tag, t3: Tag)
    requires WellFormed(t1) && WellFormed(t2) && WellFormed(t3)
    ensures CountTimesLast([t1, t2, t3]) == 3.0 * Value(t3) as real / 100.0
  {
    var x := Value(t3) as real / 100.0;
    assert Times(3, x) == Times(2, x) + x == Times(1, x) + x + x == Times(0, x) + x + x + x;
  }

  /** `<SKILL REFLECT 5: +10%>`, `<SKILL REFLECT 5: +30%>` and `<SKILL REFLECT 5: +20%>` as tags. */
  lemma TenThirtyTwentyTags()
    ensures WellFormed(Tag(Skill, 5, Plus, "10", true)) && WellFormed(Tag(Skill, 5, Plus, "30", true))
    ensures WellFormed(Tag(Skill, 5, Plus, "20", true))
    ensures Render(Tag(Skill, 5, Plus, "10", true)) == "<SKILL REFLECT 5: +10%>"
    ensures Render(Tag(Skill, 5, Plus, "30", true)) == "<SKILL REFLECT 5: +30%>"
    ensures Render(Tag(Skill, 5, Plus, "20", true)) == "<SKILL REFLECT 5: +20%>"
    ensures Value(Tag(Skill, 5, Plus, "20", true)) == 20
  {
    SkillFiveHead();
    assert "20"[..1] == "2";
    assert ParseNat("20") == 20;
  }

  /**
   * With three tags, different values can still give their sum: 10, 30 and 20
   * give three times 20, which is 0.60, the same as (10 + 30 + 20) / 100.
   */
  lemma TenThirtyTwenty()
    ensures GetActionReflect("<SKILL REFLECT 5: +10%>" + "<SKILL REFLECT 5: +30%>" + "<SKILL REFLECT 5: +20%>", Skill, 5)
         == 0.60 == (10 + 30 + 20) as real / 100.0
  {
    TenThirtyTwentyTags();
    ThreeTags(Tag(Skill, 5, Plus, "10", true), Tag(Skill, 5, Plus, "30", true), Tag(Skill, 5, Plus, "20", true));
  }

  /** A tag on its own contributes its signed value over 100. */
  lemma LookupTagAlone(t: Tag)
    requires WellFormed(t)
    ensures GetActionReflect(Render(t), t.category, t.id) == Value(t) as real / 100.0
  {
    LookupSingleTag("", t, "");
    assert "" + Render(t) + "" == Render(t);
  }

  /** `<SKILL REFLECT 5: -30%>` as a tag. */
  lemma MinusThirtyTag()
    ensures WellFormed(Tag(Skill, 5, Minus, "30", true))
    ensures Render(Tag(Skill, 5, Minus, "30", true)) == "<SKILL REFLECT 5: -30%>"
    ensures Value(Tag(Skill, 5, Minus, "30", true)) == -30
  {
    var t := Tag(Skill, 5, Minus, "30", true);
    SkillFiveHead();
    assert Render(t) == "<SKILL REFLECT 5: -30%>";
    assert "30"[..1] == "3";
    assert ParseNat("30") == 30;
  }

  lemma MinusThirtyFolded()
    ensures SameUpToCase("<skill reflect 5: -30%>", "<SKILL REFLECT 5: -30%>")
  {
  }

  /** A lower-case tag counts like an upper-case one: `<skill reflect 5: -30%>` gives -0.30. */
  lemma LowerCaseTag()
    ensures GetActionReflect("<skill reflect 5: -30%>", Skill, 5) == -0.30
  {
    var t := Tag(Skill, 5, Minus, "30", true);
    MinusThirtyTag();
    LookupTagAlone(t);
    MinusThirtyFolded();
    LookupFolded("<skill reflect 5: -30%>", "<SKILL REFLECT 5: -30%>", Skill, 5);
  }
}
