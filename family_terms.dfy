/**
 * The address-term engine: a path of relation labels from the viewer to a target, together with the
 * viewer's and the target's gender, is looked up in a closed table of Chinese kinship terms.
 */
module FamilyTerms {
  import opened Basics
  import opened FamilyGraph

  /** The stored spelling of a relation type. */
  function LabelName(t: RelationType): (s: string)
    ensures 5 <= |s| <= 6
  {
    match t
    case Father => "father"
    case Mother => "mother"
    case Spouse => "spouse"
    case Child => "child"
  }

  /** The path signature: the label names joined with '-'. */
  function Join(labels: seq<RelationType>): string
  {
    if |labels| == 0 then ""
    else if |labels| == 1 then LabelName(labels[0])
    else LabelName(labels[0]) + "-" + Join(labels[1..])
  }

  /** A signature of n labels has at least 6n - 1 characters (five per name plus the separators). */
  lemma {:induction false} JoinLength(labels: seq<RelationType>)
    requires |labels| >= 1
    ensures |Join(labels)| >= 6 * |labels| - 1
  {
    if |labels| > 1 {
      JoinLength(labels[1..]);
    }
  }

  /** The lookup on the joined signature, one comparison per table row. */
  function TermForSignature(p: string, myGender: Gender, targetGender: Gender): Option<string>
  {
    if p == "spouse" then Some(if targetGender == Male then "老公" else "老婆")
    else if p == "father" then Some("爸爸")
    else if p == "mother" then Some("妈妈")
    else if p == "child" then Some(if targetGender == Male then "儿子" else "女儿")
    else if p == "spouse-father" then Some(if myGender == Female then "公公" else "岳父")
    else if p == "spouse-mother" then Some(if myGender == Female then "婆婆" else "岳母")
    else if p == "father-father" then Some("爷爷")
    else if p == "father-mother" then Some("奶奶")
    else if p == "mother-father" then Some("外公")
    else if p == "mother-mother" then Some("外婆")
    else if p == "child-spouse" then Some(if targetGender == Male then "女婿" else "儿媳")
    else if p == "father-child" || p == "mother-child" then Some(if targetGender == Male then "兄弟" else "姐妹")
    else None
  }

  /** Reference table for a direct relation (a path of one label). */
  function DirectTerm(t: RelationType, targetGender: Gender): string
  {
    match t
    case Spouse => if targetGender == Male then "老公" else "老婆"
    case Father => "爸爸"
    case Mother => "妈妈"
    case Child => if targetGender == Male then "儿子" else "女儿"
  }

  /** Reference table for a relation two hops away: the first hop, then the second. */
  function SecondTerm(first: RelationType, second: RelationType, myGender: Gender, targetGender: Gender): Option<string>
  {
    match (first, second)
    case (Spouse, Father) => Some(if myGender == Female then "公公" else "岳父")
    case (Spouse, Mother) => Some(if myGender == Female then "婆婆" else "岳母")
    case (Father, Father) => Some("爷爷")
    case (Father, Mother) => Some("奶奶")
    case (Mother, Father) => Some("外公")
    case (Mother, Mother) => Some("外婆")
    case (Child, Spouse) => Some(if targetGender == Male then "女婿" else "儿媳")
    case (Father, Child) => Some(if targetGender == Male then "兄弟" else "姐妹")
    case (Mother, Child) => Some(if targetGender == Male then "兄弟" else "姐妹")
    case _ => None
  }

  /** The table by path structure: one-label and two-label paths only. */
  function TermOf(labels: seq<RelationType>, myGender: Gender, targetGender: Gender): Option<string>
  {
    if |labels| == 1 then Some(DirectTerm(labels[0], targetGender))
    else if |labels| == 2 then SecondTerm(labels[0], labels[1], myGender, targetGender)
    else None
  }

  /** Distinct labels have names that start with distinct letters. */
  lemma FirstLetterDecides(t: RelationType, u: RelationType)
    ensures LabelName(t)[0] == LabelName(u)[0] ==> t == u
  {
  }

  /** Different paths have different signatures. */
  lemma {:induction false} JoinInjective(a: seq<RelationType>, b: seq<RelationType>)
    requires Join(a) == Join(b)
    ensures a == b
    decreases |a|
  {
    if |a| == 0 || |b| == 0 {
      if |a| > 0 { JoinLength(a); }
      if |b| > 0 { JoinLength(b); }
    } else {
      assert Join(a)[0] == LabelName(a[0])[0];
      assert Join(b)[0] == LabelName(b[0])[0];
      FirstLetterDecides(a[0], b[0]);
      var n := |LabelName(a[0])|;
      if |a| > 1 { JoinLength(a[1..]); }
      if |b| > 1 { JoinLength(b[1..]); }
      if |a| > 1 && |b| > 1 {
        assert Join(a[1..]) == Join(a)[n + 1..];
        assert Join(b[1..]) == Join(b)[n + 1..];
        JoinInjective(a[1..], b[1..]);
        assert a == [a[0]] + a[1..] && b == [b[0]] + b[1..];
      } else {
        assert |a| == 1 && |b| == 1;
        assert a == [a[0]] && b == [b[0]];
      }
    }
  }

  /** Each row of the lookup names the signature of exactly one path. */
  lemma TableRowsAreSignatures()
    ensures "spouse" == Join([Spouse]) && "father" == Join([Father]) && "mother" == Join([Mother]) && "child" == Join([Child])
    ensures "spouse-father" == Join([Spouse, Father]) && "spouse-mother" == Join([Spouse, Mother])
    ensures "father-father" == Join([Father, Father]) && "father-mother" == Join([Father, Mother])
    ensures "mother-father" == Join([Mother, Father]) && "mother-mother" == Join([Mother, Mother])
    ensures "child-spouse" == Join([Child, Spouse])
    ensures "father-child" == Join([Father, Child]) && "mother-child" == Join([Mother, Child])
  {
    assert [Spouse, Father][1..] == [Father];
    assert [Spouse, Mother][1..] == [Mother];
    assert [Father, Father][1..] == [Father];
    assert [Father, Mother][1..] == [Mother];
    assert [Mother, Father][1..] == [Father];
    assert [Mother, Mother][1..] == [Mother];
    assert [Child, Spouse][1..] == [Spouse];
    assert [Father, Child][1..] == [Child];
    assert [Mother, Child][1..] == [Child];
  }

  lemma SameSignature(a: seq<RelationType>, b: seq<RelationType>)
    ensures Join(a) == Join(b) <==> a == b
  {
    if Join(a) == Join(b) {
      JoinInjective(a, b);
    }
  }

  /** Comparing joined signatures is exactly matching on the path's labels: no two paths share a signature row. */
  lemma SignatureLookupIsStructural(labels: seq<RelationType>, myGender: Gender, targetGender: Gender)
    requires |labels| >= 1
    ensures TermForSignature(Join(labels), myGender, targetGender) == TermOf(labels, myGender, targetGender)
  {
    if |labels| == 1 {
      assert labels == [labels[0]];
      OneLabelLookup(labels[0], myGender, targetGender);
    } else if |labels| == 2 {
      assert labels == [labels[0], labels[1]];
      TwoLabelLookup(labels[0], labels[1], myGender, targetGender);
    } else {
      JoinLength(labels);
      LongSignatureUnlisted(Join(labels), myGender, targetGender);
    }
  }

  /** No row of the lookup is longer than 13 characters, so a signature of three or more labels matches none. */
  lemma LongSignatureUnlisted(p: string, myGender: Gender, targetGender: Gender)
    requires |p| >= 17
    ensures TermForSignature(p, myGender, targetGender) == None
  {
  }

  lemma OneLabelLookup(x: RelationType, myGender: Gender, targetGender: Gender)
    ensures TermForSignature(Join([x]), myGender, targetGender) == Some(DirectTerm(x, targetGender))
  {
    TableRowsAreSignatures();
    SameSignature([x], [Spouse]);
    SameSignature([x], [Father]);
    SameSignature([x], [Mother]);
    SameSignature([x], [Child]);
  }

  lemma TwoLabelLookup(x: RelationType, y: RelationType, myGender: Gender, targetGender: Gender)
    ensures TermForSignature(Join([x, y]), myGender, targetGender) == SecondTerm(x, y, myGender, targetGender)
  {
    TableRowsAreSignatures();
    var p := [x, y];
    JoinLength(p);
    SameSignature(p, [Spouse, Father]);
    SameSignature(p, [Spouse, Mother]);
    SameSignature(p, [Father, Father]);
    SameSignature(p, [Father, Mother]);
    SameSignature(p, [Mother, Father]);
    SameSignature(p, [Mother, Mother]);
    SameSignature(p, [Child, Spouse]);
    SameSignature(p, [Father, Child]);
    SameSignature(p, [Mother, Child]);
  }

  /**
   * The address term for a path found between viewer and target: nothing for a missing or empty
   * path; otherwise the table entry for the path's signature, if any.
   */
  function CalculateCall(path: Option<seq<RelationType>>, myGender: Gender, targetGender: Gender): (r: Option<string>)
    ensures r == if path.Some? then TermOf(path.value, myGender, targetGender) else None
  {
    if path.None? || |path.value| == 0 then None
    else
      SignatureLookupIsStructural(path.value, myGender, targetGender);
      TermForSignature(Join(path.value), myGender, targetGender)
  }

  /** The table covers exactly the paths of one and two labels that it lists; every longer path gets no term. */
  lemma TermDomain(labels: seq<RelationType>, myGender: Gender, targetGender: Gender)
    ensures TermOf(labels, myGender, targetGender).Some? <==>
              |labels| == 1 || (|labels| == 2 && (labels[0], labels[1]) !in
                                                 {(Spouse, Spouse), (Spouse, Child), (Father, Spouse), (Mother, Spouse),
                                                  (Child, Father), (Child, Mother), (Child, Child)})
  {
    if |labels| == 2 {
      match labels[0]
      case Spouse =>
      case Father =>
      case Mother =>
      case Child =>
    }
  }

  /** Every term in the table is a non-empty word. */
  lemma TermsNonEmpty(labels: seq<RelationType>, myGender: Gender, targetGender: Gender)
    ensures TermOf(labels, myGender, targetGender).Some? ==> TermOf(labels, myGender, targetGender).value != ""
  {
  }

  /** The viewer's own gender matters only for the parents of a spouse. */
  lemma ViewerGenderMattersOnlyForInLaws(labels: seq<RelationType>, g1: Gender, g2: Gender, targetGender: Gender)
    requires labels != [Spouse, Father] && labels != [Spouse, Mother]
    ensures TermOf(labels, g1, targetGender) == TermOf(labels, g2, targetGender)
  {
    if |labels| == 2 {
      assert labels == [labels[0], labels[1]];
    }
  }

  /**
   * A target whose gender is not recorded as male is addressed like a female one: only "male"
   * selects the husband, son, son-in-law and brother terms.
   */
  lemma NonMaleTargetsGetFemaleTerms(labels: seq<RelationType>, myGender: Gender, g: Gender)
    requires g != Male
    ensures TermOf(labels, myGender, g) == TermOf(labels, myGender, Female)
  {
  }
}
