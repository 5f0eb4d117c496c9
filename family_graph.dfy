/**
 * The relationship graph behind the family list: every user becomes a node, and every stored
 * relation row (user_id, related_user_id, relation_type) contributes a forward edge at user_id
 * and a derived reverse edge at related_user_id.
 */
module FamilyGraph {
  import opened Basics

  /** The closed set of stored relation types: "related_user_id is the <type> of user_id". */
  datatype RelationType = Father | Mother | Spouse | Child

  /** A stored gender other than "male" or "female" (including a missing one) behaves as Unknown. */
  datatype Gender = Male | Female | Unknown

  datatype User = User(id: int, nickname: string, gender: Gender)

  /** One row of the family_relations table; custom_call is the legacy per-row override. */
  datatype RelationRow = RelationRow(userId: int, relatedUserId: int, relationType: RelationType, customCall: Option<string>)

  /** An adjacency entry: `to` is the `relation` of the node whose list holds the entry. */
  datatype Edge = Edge(to: int, relation: RelationType)

  type Graph = map<int, seq<Edge>>

  /** Ordered pair (viewer, target) that keys an address-term override. */
  type PairKey = (int, int)

  /** The gender lookup built by setting one entry per user in list order (a later row wins). */
  function GenderTable(users: seq<User>): map<int, Gender>
    decreases |users|
  {
    if users == [] then map[]
    else GenderTable(users[..|users| - 1])[users[|users| - 1].id := users[|users| - 1].gender]
  }

  lemma {:induction false} GenderTableLookup(users: seq<User>, id: int)
    ensures id in GenderTable(users) <==> exists i :: 0 <= i < |users| && users[i].id == id
    ensures forall i :: 0 <= i < |users| && users[i].id == id && (forall j :: i < j < |users| ==> users[j].id != id)
                        ==> id in GenderTable(users) && GenderTable(users)[id] == users[i].gender
    decreases |users|
  {
    if users != [] {
      var init := users[..|users| - 1];
      GenderTableLookup(init, id);
      assert forall i :: 0 <= i < |init| ==> init[i] == users[i];
      if id != users[|users| - 1].id {
        assert (exists i :: 0 <= i < |users| && users[i].id == id) ==> exists i :: 0 <= i < |init| && init[i].id == id;
      }
    }
  }

  /** The gender of a relation's source user, as seen through the lookup (absent users have none). */
  function SourceGender(genders: map<int, Gender>, u: int): Option<Gender>
  {
    if u in genders then Some(genders[u]) else None
  }

  /**
   * The label of the reverse edge: the source user described from the related user's side.
   * Only a female source of a "child" row becomes "mother"; every other gender, and an absent user, gives "father".
   */
  function ReverseLabel(t: RelationType, sourceGender: Option<Gender>): (r: RelationType)
    ensures r == Spouse <==> t == Spouse
    ensures r == Child <==> (t == Father || t == Mother)
    ensures t == Child ==> (r == Mother <==> sourceGender == Some(Female))
    ensures t == Child ==> (r == Father <==> sourceGender != Some(Female))
  {
    match t
    case Spouse => Spouse
    case Father => Child
    case Mother => Child
    case Child => if sourceGender == Some(Female) then Mother else Father
  }

  /** A label agrees with the gender of the person it names (an unknown gender never contradicts "father"). */
  predicate Consistent(t: RelationType, g: Gender)
  {
    (t == Father ==> g != Female) && (t == Mother ==> g == Female)
  }

  /**
   * Reversing twice gives back the original label whenever that label agrees with the gender of the
   * person it names: the symmetry between a stored row and its derived reverse.
   */
  lemma ReverseTwice(t: RelationType, g1: Gender, g2: Gender)
    requires Consistent(t, g2)
    ensures ReverseLabel(ReverseLabel(t, Some(g1)), Some(g2)) == t
  {
  }

  function Forward(r: RelationRow): Edge
  {
    Edge(r.relatedUserId, r.relationType)
  }

  function Backward(r: RelationRow, genders: map<int, Gender>): Edge
  {
    Edge(r.userId, ReverseLabel(r.relationType, SourceGender(genders, r.userId)))
  }

  /**
   * Reference definition of one node's adjacency list: rows in order, each contributing its forward
   * edge when the node is the row's user and its reverse edge when the node is the row's related user.
   */
  function EdgesAt(n: int, rows: seq<RelationRow>, genders: map<int, Gender>): seq<Edge>
    decreases |rows|
  {
    if rows == [] then []
    else
      var r := rows[|rows| - 1];
      EdgesAt(n, rows[..|rows| - 1], genders)
        + (if r.userId == n then [Forward(r)] else [])
        + (if r.relatedUserId == n then [Backward(r, genders)] else [])
  }

  /** Whether row r puts edge e into node n's list, as its forward or as its reverse edge. */
  predicate PutsEdge(r: RelationRow, n: int, e: Edge, genders: map<int, Gender>)
  {
    (r.userId == n && e == Forward(r)) || (r.relatedUserId == n && e == Backward(r, genders))
  }

  /** An edge is in a node's list exactly when some row puts it there, forwards or backwards. */
  lemma {:induction false} EdgesAtMembership(n: int, rows: seq<RelationRow>, genders: map<int, Gender>, e: Edge)
    ensures e in EdgesAt(n, rows, genders) <==> exists i :: 0 <= i < |rows| && PutsEdge(rows[i], n, e, genders)
    decreases |rows|
  {
    if rows != [] {
      var init := rows[..|rows| - 1];
      var r := rows[|rows| - 1];
      EdgesAtMembership(n, init, genders, e);
      assert forall i :: 0 <= i < |init| ==> init[i] == rows[i];
      if exists i :: 0 <= i < |rows| && PutsEdge(rows[i], n, e, genders) {
        var i :| 0 <= i < |rows| && PutsEdge(rows[i], n, e, genders);
        if i < |init| {
          assert PutsEdge(init[i], n, e, genders);
        }
      }
      if PutsEdge(r, n, e, genders) {
        assert PutsEdge(rows[|rows| - 1], n, e, genders);
      }
    }
  }

  /** Each row adds exactly one entry at each of its endpoints (two at a node it relates to itself). */
  lemma {:induction false} EdgesAtLength(n: int, rows: seq<RelationRow>, genders: map<int, Gender>)
    ensures |EdgesAt(n, rows, genders)| == CountEnds(n, rows)
    decreases |rows|
  {
    if rows != [] {
      EdgesAtLength(n, rows[..|rows| - 1], genders);
    }
  }

  /** How many row endpoints (user_id or related_user_id) are the node n. */
  function CountEnds(n: int, rows: seq<RelationRow>): nat
    decreases |rows|
  {
    if rows == [] then 0
    else
      var r := rows[|rows| - 1];
      CountEnds(n, rows[..|rows| - 1]) + (if r.userId == n then 1 else 0) + (if r.relatedUserId == n then 1 else 0)
  }

  /**
   * The legacy override of a pair taken from family_relations.custom_call: the first row for that
   * ordered pair whose custom_call is non-empty.
   */
  function FirstLegacyCall(rows: seq<RelationRow>, k: PairKey): Option<string>
    decreases |rows|
  {
    if rows == [] then None
    else
      var earlier := FirstLegacyCall(rows[..|rows| - 1], k);
      var r := rows[|rows| - 1];
      if earlier.Some? then earlier
      else if (r.userId, r.relatedUserId) == k && GivenText(r.customCall) then Some(r.customCall.value)
      else None
  }

  lemma {:induction false} FirstLegacyCallIsFirst(rows: seq<RelationRow>, k: PairKey, i: int)
    requires 0 <= i < |rows| && (rows[i].userId, rows[i].relatedUserId) == k && GivenText(rows[i].customCall)
    requires forall j :: 0 <= j < i ==> !((rows[j].userId, rows[j].relatedUserId) == k && GivenText(rows[j].customCall))
    ensures FirstLegacyCall(rows, k) == rows[i].customCall
    decreases |rows|
  {
    var init := rows[..|rows| - 1];
    if i < |init| {
      FirstLegacyCallIsFirst(init, k, i);
    } else {
      FirstLegacyCallNone(init, k);
    }
  }

  lemma {:induction false} FirstLegacyCallNone(rows: seq<RelationRow>, k: PairKey)
    requires forall j :: 0 <= j < |rows| ==> !((rows[j].userId, rows[j].relatedUserId) == k && GivenText(rows[j].customCall))
    ensures FirstLegacyCall(rows, k) == None
    decreases |rows|
  {
    if rows != [] {
      FirstLegacyCallNone(rows[..|rows| - 1], k);
    }
  }

  /** The adjacency map the loaded tables describe: one node per user, holding the edges the rows put there. */
  function GraphOf(users: seq<User>, relations: seq<RelationRow>): (graph: Graph)
    ensures forall n :: n in graph <==> exists i :: 0 <= i < |users| && users[i].id == n
  {
    var genders := GenderTable(users);
    forall n ensures n in genders <==> exists i :: 0 <= i < |users| && users[i].id == n {
      GenderTableLookup(users, n);
    }
    map n | n in genders :: EdgesAt(n, relations, genders)
  }

  /** The override lookup: a user_custom_calls entry always wins; otherwise the first legacy row's custom_call. */
  ghost predicate IsOverrideTable(m: map<PairKey, string>, stored: map<PairKey, string>, rows: seq<RelationRow>)
  {
    && (forall k :: k in m <==> (k in stored || FirstLegacyCall(rows, k).Some?))
    && (forall k :: k in m ==> m[k] == if k in stored then stored[k] else FirstLegacyCall(rows, k).value)
  }

  /**
   * Builds, from the loaded tables, the gender lookup, the bidirectional adjacency map (one node per
   * user, both edges of every row) and the override lookup (stored overrides first, then the legacy
   * per-row custom calls for pairs that have none).
   */
  method BuildGraph(users: seq<User>, relations: seq<RelationRow>, stored: map<PairKey, string>)
    returns (graph: Graph, genders: map<int, Gender>, overrides: map<PairKey, string>)
    ensures genders == GenderTable(users)
    ensures graph == GraphOf(users, relations)
    ensures IsOverrideTable(overrides, stored, relations)
  {
    graph, genders := map[], map[];
    for i := 0 to |users|
      invariant genders == GenderTable(users[..i])
      invariant graph.Keys == genders.Keys
      invariant forall n :: n in graph ==> graph[n] == []
    {
      assert users[..i + 1][..i] == users[..i];
      genders := genders[users[i].id := users[i].gender];
      graph := graph[users[i].id := []];
    }
    assert users[..|users|] == users;
    overrides := stored;
    for j := 0 to |relations|
      invariant graph.Keys == genders.Keys
      invariant forall n :: n in graph ==> graph[n] == EdgesAt(n, relations[..j], genders)
      invariant IsOverrideTable(overrides, stored, relations[..j])
    {
      var r := relations[j];
      assert relations[..j + 1][..j] == relations[..j];
      assert relations[..j + 1][j] == r;
      ghost var graph0, overrides0 := graph, overrides;
      var key := (r.userId, r.relatedUserId);
      if key !in overrides && GivenText(r.customCall) {
        overrides := overrides[key := r.customCall.value];
      }
      if r.userId in graph {
        graph := graph[r.userId := graph[r.userId] + [Edge(r.relatedUserId, r.relationType)]];
      }
      var rev := ReverseLabel(r.relationType, SourceGender(genders, r.userId));
      if r.relatedUserId in graph {
        graph := graph[r.relatedUserId := graph[r.relatedUserId] + [Edge(r.userId, rev)]];
      }
      forall n | n in graph
        ensures graph[n] == EdgesAt(n, relations[..j + 1], genders)
      {
        assert graph[n] == graph0[n] + (if r.userId == n then [Forward(r)] else [])
                                     + (if r.relatedUserId == n then [Backward(r, genders)] else []);
      }
      forall k
        ensures k in overrides <==> (k in stored || FirstLegacyCall(relations[..j + 1], k).Some?)
        ensures k in overrides ==> overrides[k] == if k in stored then stored[k] else FirstLegacyCall(relations[..j + 1], k).value
      {
        assert FirstLegacyCall(relations[..j + 1], k) ==
          if FirstLegacyCall(relations[..j], k).Some? then FirstLegacyCall(relations[..j], k)
          else if key == k && GivenText(r.customCall) then Some(r.customCall.value)
          else None;
      }
    }
    assert relations[..|relations|] == relations;
    assert graph == GraphOf(users, relations);
  }
}
