/**
 * The family handlers over the three tables they touch: users, family_relations and
 * user_custom_calls. The list handler combines the graph, the search and the term table with the
 * per-pair overrides; the two mutating handlers validate their input and then write one row.
 */
module FamilyController {
  import opened Basics
  import opened FamilyGraph
  import opened FamilyPath
  import opened FamilyTerms

  /** One entry of the family list: the user row and the term the viewer sees for that user. */
  datatype Listed = Listed(user: User, displayCall: string)

  datatype ListOutcome = Unauthorized | Family(entries: seq<Listed>)

  datatype AddError = IncompleteParameters | SelfRelation | UnsupportedType | AlreadyAdded

  datatype AddOutcome = Added(relationType: RelationType) | Rejected(error: AddError)

  datatype UpdateOutcome = Updated | BadParameters | StoreFailed

  /** The viewer's gender as looked up in the user table; a viewer missing from it counts as unknown. */
  function ViewerGender(users: seq<User>, viewer: int): Gender
  {
    var genders := GenderTable(users);
    if viewer in genders then genders[viewer] else Unknown
  }

  /** The override for an ordered pair: the stored one if any, otherwise the first legacy per-row one. */
  function OverrideFor(stored: map<PairKey, string>, rows: seq<RelationRow>, k: PairKey): Option<string>
  {
    if k in stored then Some(stored[k]) else FirstLegacyCall(rows, k)
  }

  /** An override takes effect only when it is a non-empty text. */
  predicate Overridden(stored: map<PairKey, string>, rows: seq<RelationRow>, k: PairKey)
  {
    GivenText(OverrideFor(stored, rows, k))
  }

  /** The computed term, or the "not set" placeholder when the table has none. */
  function TermOrUnset(term: Option<string>): (r: string)
    ensures r != ""
    ensures term.Some? && term.value != "" ==> r == term.value
    ensures !(term.Some? && term.value != "") ==> r == "未设置"
  {
    if term.Some? && term.value != "" then term.value else "未设置"
  }

  /** The relation types accepted from a request, by their stored spelling. */
  function ParseRelationType(s: string): (r: Option<RelationType>)
    ensures r.Some? ==> LabelName(r.value) == s
  {
    if s == "father" then Some(Father)
    else if s == "mother" then Some(Mother)
    else if s == "spouse" then Some(Spouse)
    else if s == "child" then Some(Child)
    else None
  }

  /** Every relation type is accepted under its own name, so parsing and naming are inverse. */
  lemma ParseName(t: RelationType)
    ensures ParseRelationType(LabelName(t)) == Some(t)
  {
    FirstLetterDecides(t, Father);
    FirstLetterDecides(t, Mother);
    FirstLetterDecides(t, Spouse);
  }

  /** Some stored row already relates exactly this ordered pair. */
  predicate HasPair(rows: seq<RelationRow>, userId: int, relatedUserId: int)
  {
    exists i :: 0 <= i < |rows| && rows[i].userId == userId && rows[i].relatedUserId == relatedUserId
  }

  /**
   * The validation of a new relation, in the order the handler applies it: incomplete input, a
   * relation to oneself, an unknown type, then an existing row for the same ordered pair.
   */
  function CheckAddRelation(rows: seq<RelationRow>, viewer: Option<int>, related: Option<int>, relationType: Option<string>)
    : (r: AddOutcome)
    ensures r.Added? <==> GivenId(viewer) && GivenId(related) && GivenText(relationType)
                           && viewer.value != related.value
                           && ParseRelationType(relationType.value).Some?
                           && !HasPair(rows, viewer.value, related.value)
    ensures r.Added? ==> LabelName(r.relationType) == relationType.value
    ensures r == Rejected(IncompleteParameters) <==> !(GivenId(viewer) && GivenId(related) && GivenText(relationType))
  {
    if !GivenId(viewer) || !GivenId(related) || !GivenText(relationType) then Rejected(IncompleteParameters)
    else if viewer.value == related.value then Rejected(SelfRelation)
    else match ParseRelationType(relationType.value)
      case None => Rejected(UnsupportedType)
      case Some(t) => if HasPair(rows, viewer.value, related.value) then Rejected(AlreadyAdded) else Added(t)
  }

  /** Adding the same relation twice: the second request is refused as a duplicate. */
  lemma AddTwiceRejected(rows: seq<RelationRow>, viewer: Option<int>, related: Option<int>, relationType: Option<string>)
    requires CheckAddRelation(rows, viewer, related, relationType).Added?
    ensures var row := RelationRow(viewer.value, related.value, CheckAddRelation(rows, viewer, related, relationType).relationType, None);
            CheckAddRelation(rows + [row], viewer, related, relationType) == Rejected(AlreadyAdded)
  {
    var row := RelationRow(viewer.value, related.value, CheckAddRelation(rows, viewer, related, relationType).relationType, None);
    assert (rows + [row])[|rows|] == row;
  }

  /**
   * The duplicate check looks at the ordered pair only: a row stating that B is A's father does not
   * stop A from recording B as a child, which leaves two rows for the same pair of people.
   */
  lemma ReverseDirectionNotChecked()
    ensures CheckAddRelation([RelationRow(1, 2, Father, None)], Some(2), Some(1), Some("child")) == Added(Child)
  {
    var rows := [RelationRow(1, 2, Father, None)];
    assert !HasPair(rows, 2, 1);
  }

  /**
   * The stored overrides after an update request. The pair's entry is replaced by the text sent.
   * Missing ids, or a missing text (the column does not accept NULL, so the insert fails), change nothing.
   */
  function ApplyCustomCall(stored: map<PairKey, string>, viewer: Option<int>, related: Option<int>, call: Option<string>)
    : (r: map<PairKey, string>)
    ensures GivenId(viewer) && GivenId(related) && call.Some? ==>
              && r.Keys == stored.Keys + {(viewer.value, related.value)}
              && r[(viewer.value, related.value)] == call.value
              && forall k :: k in stored && k != (viewer.value, related.value) ==> r[k] == stored[k]
    ensures !(GivenId(viewer) && GivenId(related) && call.Some?) ==> r == stored
  {
    if GivenId(viewer) && GivenId(related) && call.Some? then stored[(viewer.value, related.value) := call.value] else stored
  }

  /** Sending the same update twice leaves the same table as sending it once. */
  lemma ApplyCustomCallIdempotent(stored: map<PairKey, string>, viewer: Option<int>, related: Option<int>, call: Option<string>)
    ensures ApplyCustomCall(ApplyCustomCall(stored, viewer, related, call), viewer, related, call)
         == ApplyCustomCall(stored, viewer, related, call)
  {
  }

  /** After an update, the pair's override is exactly the text sent, whatever the legacy rows say. */
  lemma UpdatedCallWins(stored: map<PairKey, string>, rows: seq<RelationRow>, viewer: int, related: int, call: string)
    requires viewer != 0 && related != 0
    ensures OverrideFor(ApplyCustomCall(stored, Some(viewer), Some(related), Some(call)), rows, (viewer, related)) == Some(call)
  {
  }

  class FamilyStore {
    var users: seq<User>
    var relations: seq<RelationRow>
    var customCalls: map<PairKey, string>

    constructor (users0: seq<User>, relations0: seq<RelationRow>, customCalls0: map<PairKey, string>)
      ensures users == users0 && relations == relations0 && customCalls == customCalls0
    {
      users, relations, customCalls := users0, relations0, customCalls0;
    }

    /**
     * The family list as the viewer sees it: every user in table order, with "我" for the viewer,
     * a non-empty override for the pair if there is one, and otherwise the term for a shortest path
     * (or "未设置"). Without a viewer the request is unauthorized.
     */
    method GetFamilyList(viewer: Option<int>) returns (r: ListOutcome, ghost paths: seq<Option<seq<RelationType>>>)
      ensures !GivenId(viewer) <==> r == Unauthorized
      ensures r.Family? ==> |r.entries| == |users| == |paths|
      ensures r.Family? ==> forall i :: 0 <= i < |users| ==> r.entries[i].user == users[i]
      ensures r.Family? ==> forall i :: 0 <= i < |users| && users[i].id == viewer.value ==> r.entries[i].displayCall == "我"
      ensures r.Family? ==> forall i :: 0 <= i < |users| && users[i].id != viewer.value
                                          && Overridden(customCalls, relations, (viewer.value, users[i].id)) ==>
                                r.entries[i].displayCall == OverrideFor(customCalls, relations, (viewer.value, users[i].id)).value
      ensures r.Family? ==> forall i :: 0 <= i < |users| && users[i].id != viewer.value
                                          && !Overridden(customCalls, relations, (viewer.value, users[i].id)) ==>
                                && IsShortestResult(GraphOf(users, relations), viewer.value, users[i].id, paths[i])
                                && r.entries[i].displayCall
                                   == TermOrUnset(CalculateCall(paths[i], ViewerGender(users, viewer.value), users[i].gender))
    {
      if !GivenId(viewer) {
        return Unauthorized, [];
      }
      var me := viewer.value;
      var graph, genders, overrides := BuildGraph(users, relations, customCalls);
      var myGender := if me in genders then genders[me] else Unknown;
      var entries: seq<Listed> := [];
      paths := [];
      for i := 0 to |users|
        invariant |entries| == i == |paths|
        invariant forall j :: 0 <= j < i ==> entries[j].user == users[j]
        invariant forall j :: 0 <= j < i && users[j].id == me ==> entries[j].displayCall == "我"
        invariant forall j :: 0 <= j < i && users[j].id != me && Overridden(customCalls, relations, (me, users[j].id)) ==>
                    entries[j].displayCall == OverrideFor(customCalls, relations, (me, users[j].id)).value
        invariant forall j :: 0 <= j < i && users[j].id != me && !Overridden(customCalls, relations, (me, users[j].id)) ==>
                    && IsShortestResult(graph, me, users[j].id, paths[j])
                    && entries[j].displayCall == TermOrUnset(CalculateCall(paths[j], myGender, users[j].gender))
      {
        var u := users[i];
        var call: string;
        ghost var path: Option<seq<RelationType>> := None;
        var key := (me, u.id);
        if u.id == me {
          call := "我";
        } else if key in overrides && overrides[key] != "" {
          call := overrides[key];
        } else {
          var found := FindShortestPath(graph, me, u.id);
          call := TermOrUnset(CalculateCall(found, myGender, u.gender));
          path := found;
        }
        entries := entries + [Listed(u, call)];
        paths := paths + [path];
      }
      return Family(entries), paths;
    }

    /** Records "related is the <type> of viewer" when the request passes validation; otherwise changes nothing. */
    method AddRelation(viewer: Option<int>, related: Option<int>, relationType: Option<string>) returns (r: AddOutcome)
      modifies this
      ensures r == CheckAddRelation(old(relations), viewer, related, relationType)
      ensures relations == if r.Added? then old(relations) + [RelationRow(viewer.value, related.value, r.relationType, None)]
                           else old(relations)
      ensures users == old(users) && customCalls == old(customCalls)
    {
      r := CheckAddRelation(relations, viewer, related, relationType);
      if r.Added? {
        relations := relations + [RelationRow(viewer.value, related.value, r.relationType, None)];
      }
    }

    /**
     * Stores the viewer's own term for a related user, replacing any earlier one for that ordered pair.
     * A request without a text fails at the store and leaves the table as it was.
     */
    method UpdateCustomCall(viewer: Option<int>, related: Option<int>, call: Option<string>) returns (r: UpdateOutcome)
      modifies this
      ensures r == BadParameters <==> !(GivenId(viewer) && GivenId(related))
      ensures r == Updated <==> GivenId(viewer) && GivenId(related) && call.Some?
      ensures customCalls == ApplyCustomCall(old(customCalls), viewer, related, call)
      ensures users == old(users) && relations == old(relations)
    {
      if !GivenId(viewer) || !GivenId(related) {
        return BadParameters;
      }
      if call.None? {
        return StoreFailed;
      }
      customCalls := customCalls[(viewer.value, related.value) := call.value];
      return Updated;
    }
  }
}
