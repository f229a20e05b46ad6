// GroupApiImpl: groups form a forest through their parentGroupId; the
// hierarchy below a group is expanded with a depth cut and a check for
// cycles, deleting a group orphans its children, updates copy the fields
// they set, and six setters replace a group's attached documents.
module GroupApi {
  import opened Common
  import opened Model
  import opened Store
  import opened DataRepositoryUtils

  const GroupNotFound := NotFound("Group not found")

  // ---------------------------------------------------------------------
  // Repository queries

  /** `findById`: the position of the group with that id, the first one if several matched. */
  function IndexOfGroup(groups: seq<Group>, id: Uuid): (r: Option<nat>)
    ensures r.Some? ==> r.value < |groups| && groups[r.value].id == Some(id) &&
                        forall i :: 0 <= i < r.value ==> groups[i].id != Some(id)
    ensures r.None? ==> forall i :: 0 <= i < |groups| ==> groups[i].id != Some(id)
  {
    if groups == [] then None
    else if groups[0].id == Some(id) then Some(0)
    else match IndexOfGroup(groups[1..], id)
      case None => None
      case Some(k) => Some(k + 1)
  }

  function FindGroup(groups: seq<Group>, id: Uuid): Option<Group>
  {
    match IndexOfGroup(groups, id)
    case None => None
    case Some(i) => Some(groups[i])
  }

  /** `findByParentGroupId`: the groups whose parent is `id`, in repository order. */
  function ChildrenOf(groups: seq<Group>, id: Option<Uuid>): seq<Group>
  {
    Filter(groups, (g: Group) => g.parentGroupId == id)
  }

  // ---------------------------------------------------------------------
  // getGroupHierarchy

  /** A group of the hierarchy: fourteen of the group's fields (not the icon or sales template) and its children. */
  datatype GroupNode = GroupNode(
    id: Option<Uuid>,
    parentGroupId: Option<Uuid>,
    ownerId: Option<Uuid>,
    name: Option<string>,
    eligibilityId: Option<Uuid>,
    sponsorshipId: Option<Uuid>,
    fareId: Option<Uuid>,
    originZoneId: Option<Uuid>,
    destinationSortId: Option<Uuid>,
    privacyId: Option<Uuid>,
    termId: Option<Uuid>,
    serviceLevelAgreementId: Option<Uuid>,
    reportingId: Option<Uuid>,
    agentId: Option<Uuid>,
    children: seq<GroupNode>)

  function NodeOf(g: Group, children: seq<GroupNode>): GroupNode
  {
    GroupNode(g.id, g.parentGroupId, g.ownerId, g.name, g.eligibilityId, g.sponsorshipId, g.fareId,
              g.originZoneId, g.destinationSortId, g.privacyId, g.termId, g.serviceLevelAgreementId,
              g.reportingId, g.agentId, children)
  }

  /** The number of groups in a tree. */
  function Size(n: GroupNode): nat
    decreases n, 1
  {
    1 + SizeAll(n.children)
  }

  function SizeAll(ns: seq<GroupNode>): nat
    decreases ns, 0
  {
    if ns == [] then 0 else Size(ns[0]) + SizeAll(ns[1..])
  }

  /** The number of levels of a tree. */
  function Height(n: GroupNode): nat
    decreases n, 1
  {
    1 + HeightAll(n.children)
  }

  function HeightAll(ns: seq<GroupNode>): nat
    decreases ns, 0
  {
    if ns == [] then 0
    else
      var h := Height(ns[0]);
      var rest := HeightAll(ns[1..]);
      if h < rest then rest else h
  }

  function TreeSize(n: Option<GroupNode>): nat
  {
    if n.None? then 0 else Size(n.value)
  }

  function Present(n: Option<GroupNode>): seq<GroupNode>
  {
    if n.None? then [] else [n.value]
  }

  /**
   * The private recursion: a group deeper than maxDepth gives nothing; a
   * group already in the set of visited groups is a cycle; otherwise the
   * group is added to the set and its children are expanded one level
   * deeper, in order, the set growing as they go.
   */
  function Expand(groups: seq<Group>, g: Group, depth: int, maxDepth: int, visited: set<Group>)
    : Result<(Option<GroupNode>, set<Group>)>
    decreases maxDepth - depth + 1, 0
  {
    if depth > maxDepth then Ok((None, visited))
    else if g in visited then Err(CyclicGroups)
    else
      var kids :- ExpandAll(groups, ChildrenOf(groups, g.id), depth + 1, maxDepth, visited + {g});
      Ok((Some(NodeOf(g, kids.0)), kids.1))
  }

  function ExpandAll(groups: seq<Group>, kids: seq<Group>, depth: int, maxDepth: int, visited: set<Group>)
    : Result<(seq<GroupNode>, set<Group>)>
    decreases maxDepth - depth + 1, |kids| + 1
  {
    if kids == [] then Ok(([], visited))
    else
      var first :- Expand(groups, kids[0], depth, maxDepth, visited);
      var rest :- ExpandAll(groups, kids[1..], depth, maxDepth, first.1);
      Ok((Present(first.0) + rest.0, rest.1))
  }

  /**
   * The only error is a cycle; the set of visited groups only grows, by
   * exactly the groups of the tree built, each of them a group of the
   * repository or the group expanded.
   */
  lemma {:induction false} ExpandVisits(groups: seq<Group>, g: Group, depth: int, maxDepth: int, visited: set<Group>)
    ensures var r := Expand(groups, g, depth, maxDepth, visited);
            (r.Err? ==> r.error == CyclicGroups) &&
            (r.Ok? ==> visited <= r.value.1 && |r.value.1| == |visited| + TreeSize(r.value.0) &&
                       forall x :: x in r.value.1 && x !in visited ==> x == g || x in groups)
    decreases maxDepth - depth + 1, 0
  {
    if depth <= maxDepth && g !in visited {
      var kids := ChildrenOf(groups, g.id);
      FilterMembers(groups, (h: Group) => h.parentGroupId == g.id);
      ExpandAllVisits(groups, kids, depth + 1, maxDepth, visited + {g});
    }
  }

  lemma {:induction false} ExpandAllVisits(groups: seq<Group>, kids: seq<Group>, depth: int, maxDepth: int, visited: set<Group>)
    requires forall k :: k in kids ==> k in groups
    ensures var r := ExpandAll(groups, kids, depth, maxDepth, visited);
            (r.Err? ==> r.error == CyclicGroups) &&
            (r.Ok? ==> visited <= r.value.1 && |r.value.1| == |visited| + SizeAll(r.value.0) &&
                       forall x :: x in r.value.1 && x !in visited ==> x in groups)
    decreases maxDepth - depth + 1, |kids| + 1
  {
    if kids != [] {
      assert kids[0] in kids;
      ExpandVisits(groups, kids[0], depth, maxDepth, visited);
      var first := Expand(groups, kids[0], depth, maxDepth, visited);
      if first.Ok? {
        ExpandAllVisits(groups, kids[1..], depth, maxDepth, first.value.1);
        var rest := ExpandAll(groups, kids[1..], depth, maxDepth, first.value.1);
        if rest.Ok? {
          SizeAllConcat(Present(first.value.0), rest.value.0);
        }
      }
    }
  }

  lemma {:induction false} SizeAllConcat(a: seq<GroupNode>, b: seq<GroupNode>)
    ensures SizeAll(a + b) == SizeAll(a) + SizeAll(b)
  {
    if a == [] {
      assert a + b == b;
    } else {
      assert (a + b)[0] == a[0] && (a + b)[1..] == a[1..] + b;
      SizeAllConcat(a[1..], b);
    }
  }

  lemma {:induction false} HeightAllConcat(a: seq<GroupNode>, b: seq<GroupNode>, bound: int)
    requires HeightAll(a) <= bound && HeightAll(b) <= bound
    ensures HeightAll(a + b) <= bound
  {
    if a == [] {
      assert a + b == b;
    } else {
      assert (a + b)[0] == a[0] && (a + b)[1..] == a[1..] + b;
      HeightAllConcat(a[1..], b, bound);
    }
  }

  /** No node lies below maxDepth: a tree expanded at `depth` has at most maxDepth - depth + 1 levels. */
  lemma {:induction false} ExpandHeight(groups: seq<Group>, g: Group, depth: int, maxDepth: int, visited: set<Group>)
    ensures var r := Expand(groups, g, depth, maxDepth, visited);
            r.Ok? && r.value.0.Some? ==> depth <= maxDepth && Height(r.value.0.value) <= maxDepth - depth + 1
    decreases maxDepth - depth + 1, 0
  {
    if depth <= maxDepth && g !in visited {
      ExpandAllHeight(groups, ChildrenOf(groups, g.id), depth + 1, maxDepth, visited + {g});
    }
  }

  lemma {:induction false} ExpandAllHeight(groups: seq<Group>, kids: seq<Group>, depth: int, maxDepth: int, visited: set<Group>)
    ensures var r := ExpandAll(groups, kids, depth, maxDepth, visited);
            r.Ok? ==> (depth > maxDepth ==> r.value.0 == []) &&
                      (depth <= maxDepth ==> HeightAll(r.value.0) <= maxDepth - depth + 1)
    decreases maxDepth - depth + 1, |kids| + 1
  {
    if kids != [] {
      ExpandHeight(groups, kids[0], depth, maxDepth, visited);
      var first := Expand(groups, kids[0], depth, maxDepth, visited);
      if first.Ok? {
        ExpandAllHeight(groups, kids[1..], depth, maxDepth, first.value.1);
        var rest := ExpandAll(groups, kids[1..], depth, maxDepth, first.value.1);
        if rest.Ok? && depth <= maxDepth {
          HeightAllConcat(Present(first.value.0), rest.value.0, maxDepth - depth + 1);
        }
      }
    }
  }

  /** Within the depth cut every child is expanded: the nodes are the children, in order. */
  lemma {:induction false} ExpandAllChildren(groups: seq<Group>, kids: seq<Group>, depth: int, maxDepth: int, visited: set<Group>)
    requires depth <= maxDepth
    ensures var r := ExpandAll(groups, kids, depth, maxDepth, visited);
            r.Ok? ==> |r.value.0| == |kids| &&
                      forall i :: 0 <= i < |kids| ==> r.value.0[i] == NodeOf(kids[i], r.value.0[i].children)
    decreases |kids|
  {
    if kids != [] {
      var first := Expand(groups, kids[0], depth, maxDepth, visited);
      if first.Ok? {
        ExpandAllChildren(groups, kids[1..], depth, maxDepth, first.value.1);
      }
    }
  }

  /** Beyond the depth cut nothing is expanded and nothing is visited. */
  lemma {:induction false} ExpandAllBeyondCut(groups: seq<Group>, kids: seq<Group>, depth: int, maxDepth: int, visited: set<Group>)
    requires depth > maxDepth
    ensures ExpandAll(groups, kids, depth, maxDepth, visited) == Ok(([], visited))
    decreases |kids|
  {
    if kids != [] {
      assert Expand(groups, kids[0], depth, maxDepth, visited) == Ok((None, visited));
      ExpandAllBeyondCut(groups, kids[1..], depth, maxDepth, visited);
      assert Present(None) + [] == [];
    }
  }

  /** Meeting again, within the depth cut, a group already visited fails the whole expansion. */
  lemma {:induction false} ExpandAllMeetsVisited(groups: seq<Group>, kids: seq<Group>, depth: int, maxDepth: int,
                                                 visited: set<Group>, x: Group)
    requires depth <= maxDepth && x in kids && x in visited
    ensures ExpandAll(groups, kids, depth, maxDepth, visited).Err?
    decreases |kids|
  {
    if kids[0] != x {
      assert x in kids[1..];
      ExpandVisits(groups, kids[0], depth, maxDepth, visited);
      var first := Expand(groups, kids[0], depth, maxDepth, visited);
      if first.Ok? {
        ExpandAllMeetsVisited(groups, kids[1..], depth, maxDepth, first.value.1, x);
      }
    }
  }

  /**
   * A group that is its own parent is a cycle when there is room for one
   * more level below it, and not reported when the cut stops at it.
   */
  lemma SelfParentCycle(groups: seq<Group>, g: Group, depth: int, maxDepth: int, visited: set<Group>)
    requires g in groups && g.parentGroupId == g.id
    ensures depth < maxDepth ==> Expand(groups, g, depth, maxDepth, visited) == Err(CyclicGroups)
    ensures depth == maxDepth && g !in visited ==>
              Expand(groups, g, depth, maxDepth, visited) == Ok((Some(NodeOf(g, [])), visited + {g}))
  {
    var kids := ChildrenOf(groups, g.id);
    if depth < maxDepth && g !in visited {
      FilterMembers(groups, (h: Group) => h.parentGroupId == g.id);
      ExpandAllMeetsVisited(groups, kids, depth + 1, maxDepth, visited + {g}, g);
      ExpandVisits(groups, g, depth, maxDepth, visited);
    }
    if depth == maxDepth {
      ExpandAllBeyondCut(groups, kids, depth + 1, maxDepth, visited + {g});
    }
  }

  /**
   * getGroupHierarchy(groupId, maxDepth): a null id is refused by the
   * lookup, an unknown group is "Group not found", a null maxDepth is
   * Integer.MAX_VALUE, and the expansion starts at depth 0 with nothing
   * visited. `Ok(None)` is the 404 of an empty answer.
   */
  function GroupHierarchy(groups: seq<Group>, groupId: Option<Uuid>, maxDepth: Option<int>): Result<Option<GroupNode>>
  {
    if groupId.None? then Err(IllegalArgument)
    else match FindGroup(groups, groupId.value)
      case None => Err(GroupNotFound)
      case Some(g) =>
        var expanded :- Expand(groups, g, 0, GetOrDefault(maxDepth, IntMax), {});
        Ok(expanded.0)
  }

  lemma {:induction false} SetOfSeqSize<T>(s: seq<T>)
    ensures |set x | x in s| <= |s|
  {
    if s != [] {
      SetOfSeqSize(s[1..]);
      assert (set x | x in s) == (set x | x in s[1..]) + {s[0]};
    }
  }

  /**
   * The hierarchy of a known group fails only on a cycle; it is empty
   * exactly when maxDepth is negative; otherwise it is rooted at the group,
   * holds each group at most once (so no more nodes than there are
   * groups) and has at most maxDepth + 1 levels; with maxDepth 0 it is the
   * group alone, even when the group is its own parent.
   */
  lemma GroupHierarchyCorrect(groups: seq<Group>, groupId: Option<Uuid>, maxDepth: Option<int>)
    ensures var r := GroupHierarchy(groups, groupId, maxDepth);
            var depth := GetOrDefault(maxDepth, IntMax);
            (groupId.None? ==> r == Err(IllegalArgument)) &&
            (groupId.Some? && FindGroup(groups, groupId.value).None? ==> r == Err(GroupNotFound)) &&
            (groupId.Some? && FindGroup(groups, groupId.value).Some? ==>
               var g := FindGroup(groups, groupId.value).value;
               (r.Err? ==> r.error == CyclicGroups) &&
               (r.Ok? ==> (r.value.None? <==> depth < 0)) &&
               (r.Ok? && r.value.Some? ==>
                  r.value.value == NodeOf(g, r.value.value.children) && r.value.value.id == groupId &&
                  Size(r.value.value) <= |groups| && Height(r.value.value) <= depth + 1) &&
               (depth == 0 ==> r == Ok(Some(NodeOf(g, [])))))
  {
    if groupId.Some? && FindGroup(groups, groupId.value).Some? {
      var id := groupId.value;
      var g := FindGroup(groups, id).value;
      var depth := GetOrDefault(maxDepth, IntMax);
      assert g in groups && g.id == Some(id);
      ExpandVisits(groups, g, 0, depth, {});
      ExpandHeight(groups, g, 0, depth, {});
      var e := Expand(groups, g, 0, depth, {});
      if e.Ok? && e.value.0.Some? {
        SubsetSize(e.value.1, set x | x in groups);
        SetOfSeqSize(groups);
      }
      assert GroupHierarchy(groups, groupId, maxDepth) == if e.Ok? then Ok(e.value.0) else Err(e.error);
      if depth == 0 {
        ExpandAtZero(groups, g);
      }
    }
  }

  /** With maxDepth 0 the group is expanded alone. */
  lemma ExpandAtZero(groups: seq<Group>, g: Group)
    ensures Expand(groups, g, 0, 0, {}) == Ok((Some(NodeOf(g, [])), {g}))
  {
    var none: set<Group> := {};
    assert none + {g} == {g};
    ExpandAllBeyondCut(groups, ChildrenOf(groups, g.id), 1, 0, {g});
  }

  /** Below the cut, a node's children are the groups naming it as parent, in repository order. */
  lemma ExpandedChildren(groups: seq<Group>, g: Group, depth: int, maxDepth: int, visited: set<Group>)
    requires depth < maxDepth
    ensures var r := Expand(groups, g, depth, maxDepth, visited);
            var kids := ChildrenOf(groups, g.id);
            r.Ok? ==> r.value.0.Some? && |r.value.0.value.children| == |kids| &&
                      forall i :: 0 <= i < |kids| ==>
                        r.value.0.value.children[i] == NodeOf(kids[i], r.value.0.value.children[i].children) &&
                        kids[i].parentGroupId == g.id && kids[i] in groups
  {
    var kids := ChildrenOf(groups, g.id);
    FilterMembers(groups, (h: Group) => h.parentGroupId == g.id);
    if g !in visited {
      ExpandAllChildren(groups, kids, depth + 1, maxDepth, visited + {g});
    }
  }

  // ---------------------------------------------------------------------
  // deleteGroup

  function Orphaned(g: Group, id: Uuid): Group
  {
    if g.parentGroupId == Some(id) then g.(parentGroupId := None) else g
  }

  /** The groups after deleting `id`: its children lose their parent, then it goes. */
  function GroupsAfterDelete(groups: seq<Group>, id: Uuid): seq<Group>
  {
    Filter(seq(|groups|, i requires 0 <= i < |groups| => Orphaned(groups[i], id)), (g: Group) => g.id != Some(id))
  }

  /**
   * After the delete no group has the id or names it as parent; every
   * other group is still there, orphaned if it was a child, and nothing
   * else appears.
   */
  lemma GroupsAfterDeleteProperties(groups: seq<Group>, id: Uuid)
    ensures var after := GroupsAfterDelete(groups, id);
            (forall g :: g in after ==> g.id != Some(id) && g.parentGroupId != Some(id)) &&
            (forall i :: 0 <= i < |groups| && groups[i].id != Some(id) ==> Orphaned(groups[i], id) in after) &&
            (forall g :: g in after ==> exists i :: 0 <= i < |groups| && g == Orphaned(groups[i], id))
  {
    var orphaned := seq(|groups|, i requires 0 <= i < |groups| => Orphaned(groups[i], id));
    var notIt := (g: Group) => g.id != Some(id);
    FilterMembers(orphaned, notIt);
    forall i | 0 <= i < |groups| && groups[i].id != Some(id) ensures Orphaned(groups[i], id) in GroupsAfterDelete(groups, id) {
      assert orphaned[i] in orphaned;
    }
  }

  /**
   * deleteGroup: a null id is refused by the lookup and an unknown id
   * changes nothing; otherwise every blob loses one reference to the
   * group, each child is saved without its parent, and the group is deleted.
   */
  method DeleteGroup(db: Repositories, groupId: Option<Uuid>) returns (r: Result<()>)
    requires db.Valid()
    modifies db`groups, db`blobs
    ensures db.Valid()
    ensures groupId.None? ==> r == Err(IllegalArgument)
    ensures groupId.None? || FindGroup(old(db.groups), groupId.value).None? ==>
              db.groups == old(db.groups) && db.blobs == old(db.blobs)
    ensures groupId.Some? ==> r == Ok(())
    ensures groupId.Some? && FindGroup(old(db.groups), groupId.value).Some? ==>
              db.groups == GroupsAfterDelete(old(db.groups), groupId.value) &&
              db.blobs == BlobsWithoutAllReferences(old(db.blobs), groupId.value)
  {
    if groupId.None? {
      return Err(IllegalArgument);
    }
    r := Ok(());
    var id := groupId.value;
    if IndexOfGroup(db.groups, id).None? {
      return;
    }
    RemoveAllReferences(db, Some(id));
    ghost var before, blobs := db.groups, db.blobs;
    var i := 0;
    while i < |db.groups|
      invariant 0 <= i <= |db.groups| == |before|
      invariant db.BlobsKeyed() && db.blobs == blobs
      invariant forall j :: 0 <= j < i ==> db.groups[j] == Orphaned(before[j], id)
      invariant forall j :: i <= j < |before| ==> db.groups[j] == before[j]
    {
      if db.groups[i].parentGroupId == Some(id) {
        db.groups := db.groups[i := db.groups[i].(parentGroupId := None)];
      }
      i := i + 1;
    }
    assert db.groups == seq(|before|, j requires 0 <= j < |before| => Orphaned(before[j], id));
    var ident := (g: Group) => g.id;
    assert KeysDistinct(db.groups, ident) by {
      forall j, k | 0 <= j < k < |db.groups| ensures ident(db.groups[j]) != ident(db.groups[k]) {
        assert db.groups[j].id == before[j].id && db.groups[k].id == before[k].id;
      }
    }
    FilterKeysDistinct(db.groups, (g: Group) => g.id != Some(id), ident);
    db.groups := Filter(db.groups, (g: Group) => g.id != Some(id));
    assert KeysDistinct(db.groups, ident);
  }

  // ---------------------------------------------------------------------
  // updateGroup

  /** The fifteen fields updateGroup copies from the update when it sets them: all but the id. */
  datatype GroupField =
    | ParentField | OwnerField | NameField | EligibilityField | SponsorshipField | FareField
    | OriginZoneField | DestinationSortField | PrivacyField | TermField | ServiceLevelAgreementField
    | ReportingField | AgentField | SalesTemplateField | IconField

  /** The two groups agree on field f. */
  predicate SameGroupField(a: Group, b: Group, f: GroupField)
  {
    match f
    case ParentField => a.parentGroupId == b.parentGroupId
    case OwnerField => a.ownerId == b.ownerId
    case NameField => a.name == b.name
    case EligibilityField => a.eligibilityId == b.eligibilityId
    case SponsorshipField => a.sponsorshipId == b.sponsorshipId
    case FareField => a.fareId == b.fareId
    case OriginZoneField => a.originZoneId == b.originZoneId
    case DestinationSortField => a.destinationSortId == b.destinationSortId
    case PrivacyField => a.privacyId == b.privacyId
    case TermField => a.termId == b.termId
    case ServiceLevelAgreementField => a.serviceLevelAgreementId == b.serviceLevelAgreementId
    case ReportingField => a.reportingId == b.reportingId
    case AgentField => a.agentId == b.agentId
    case SalesTemplateField => a.salesTemplateId == b.salesTemplateId
    case IconField => a.iconId == b.iconId
  }

  /** Field f of the group is set (non-null). */
  predicate GroupFieldSet(g: Group, f: GroupField)
  {
    match f
    case ParentField => g.parentGroupId.Some?
    case OwnerField => g.ownerId.Some?
    case NameField => g.name.Some?
    case EligibilityField => g.eligibilityId.Some?
    case SponsorshipField => g.sponsorshipId.Some?
    case FareField => g.fareId.Some?
    case OriginZoneField => g.originZoneId.Some?
    case DestinationSortField => g.destinationSortId.Some?
    case PrivacyField => g.privacyId.Some?
    case TermField => g.termId.Some?
    case ServiceLevelAgreementField => g.serviceLevelAgreementId.Some?
    case ReportingField => g.reportingId.Some?
    case AgentField => g.agentId.Some?
    case SalesTemplateField => g.salesTemplateId.Some?
    case IconField => g.iconId.Some?
  }

  /** The setter chain of updateGroup. */
  function MergeGroup(existing: Group, update: Group): Group
  {
    existing.(
      parentGroupId := Pick(update.parentGroupId, existing.parentGroupId),
      ownerId := Pick(update.ownerId, existing.ownerId),
      name := Pick(update.name, existing.name),
      eligibilityId := Pick(update.eligibilityId, existing.eligibilityId),
      sponsorshipId := Pick(update.sponsorshipId, existing.sponsorshipId),
      fareId := Pick(update.fareId, existing.fareId),
      originZoneId := Pick(update.originZoneId, existing.originZoneId),
      destinationSortId := Pick(update.destinationSortId, existing.destinationSortId),
      privacyId := Pick(update.privacyId, existing.privacyId),
      termId := Pick(update.termId, existing.termId),
      serviceLevelAgreementId := Pick(update.serviceLevelAgreementId, existing.serviceLevelAgreementId),
      reportingId := Pick(update.reportingId, existing.reportingId),
      agentId := Pick(update.agentId, existing.agentId),
      salesTemplateId := Pick(update.salesTemplateId, existing.salesTemplateId),
      iconId := Pick(update.iconId, existing.iconId))
  }

  /**
   * Every field the update sets is taken from it, every other is kept,
   * the id stays; a blank update changes nothing, and applying the same
   * update again gives the same group.
   */
  lemma MergeGroupProperties(existing: Group, update: Group)
    ensures var m := MergeGroup(existing, update);
            (forall f :: GroupFieldSet(update, f) ==> SameGroupField(m, update, f)) &&
            (forall f :: !GroupFieldSet(update, f) ==> SameGroupField(m, existing, f)) &&
            m.id == existing.id &&
            MergeGroup(m, update) == m &&
            MergeGroup(existing, BlankGroup) == existing
  {
  }

  /**
   * updateGroup: `findById(null)` throws IllegalArgumentException, an
   * unknown id is the 204 `Ok(None)` with nothing saved; otherwise the
   * merged group replaces the stored one and is returned.
   */
  method UpdateGroup(db: Repositories, update: Group) returns (r: Result<Option<Group>>)
    requires db.Valid()
    modifies db`groups
    ensures db.Valid()
    ensures update.id.None? ==> r == Err(IllegalArgument) && db.groups == old(db.groups)
    ensures update.id.Some? && IndexOfGroup(old(db.groups), update.id.value).None? ==>
              r == Ok(None) && db.groups == old(db.groups)
    ensures update.id.Some? && IndexOfGroup(old(db.groups), update.id.value).Some? ==>
              var i := IndexOfGroup(old(db.groups), update.id.value).value;
              r == Ok(Some(MergeGroup(old(db.groups)[i], update))) &&
              db.groups == old(db.groups)[i := MergeGroup(old(db.groups)[i], update)]
  {
    if update.id.None? {
      return Err(IllegalArgument);
    }
    var at := IndexOfGroup(db.groups, update.id.value);
    if at.None? {
      return Ok(None);
    }
    var i := at.value;
    var merged := MergeGroup(db.groups[i], update);
    db.groups := db.groups[i := merged];
    r := Ok(Some(merged));
  }

  // ---------------------------------------------------------------------
  // setGroupAgent, setGroupIcon, setGroupReporting, setGroupSalesTemplate,
  // setGroupServiceLevelAgreement, setGroupTerms

  /** The six document fields of a group the setters replace. */
  datatype DocumentField = Agent | Icon | Reporting | SalesTemplate | ServiceLevelAgreement | Terms

  function DataTypeOf(f: DocumentField): DataType
  {
    match f
    case Agent => GroupAgent
    case Icon => GroupIcon
    case Reporting => GroupReporting
    case SalesTemplate => GroupSalesTemplate
    case ServiceLevelAgreement => GroupServiceLevelAgreement
    case Terms => GroupTerms
  }

  function DocumentId(g: Group, f: DocumentField): Option<Uuid>
  {
    match f
    case Agent => g.agentId
    case Icon => g.iconId
    case Reporting => g.reportingId
    case SalesTemplate => g.salesTemplateId
    case ServiceLevelAgreement => g.serviceLevelAgreementId
    case Terms => g.termId
  }

  function WithDocumentId(g: Group, f: DocumentField, v: Option<Uuid>): Group
  {
    match f
    case Agent => g.(agentId := v)
    case Icon => g.(iconId := v)
    case Reporting => g.(reportingId := v)
    case SalesTemplate => g.(salesTemplateId := v)
    case ServiceLevelAgreement => g.(serviceLevelAgreementId := v)
    case Terms => g.(termId := v)
  }

  /** What a setter saves: the group, with the new document id passed through updateGroup. */
  function WithDocument(g: Group, f: DocumentField, newId: Option<Uuid>): Group
  {
    MergeGroup(g, WithDocumentId(g, f, newId))
  }

  /**
   * A new document's id replaces the old one and nothing else changes;
   * empty bytes pass a null id, which updateGroup skips, so the group is
   * saved unchanged and keeps the old document id.
   */
  lemma WithDocumentProperties(g: Group, f: DocumentField, newId: Option<Uuid>)
    ensures newId.Some? ==> WithDocument(g, f, newId) == WithDocumentId(g, f, newId) &&
                            DocumentId(WithDocument(g, f, newId), f) == newId
    ensures newId.None? ==> WithDocument(g, f, newId) == g
    ensures forall e :: e != f ==> DocumentId(WithDocument(g, f, newId), e) == DocumentId(g, e)
  {
  }

  /**
   * Clearing a document the group alone referenced deletes its blob while
   * the group keeps pointing at it.
   */
  lemma ClearedDocumentDangles(blobs: map<Uuid, DataBlob>, g: Group, f: DocumentField, id: Uuid)
    requires DocumentId(g, f).Some? && DocumentId(g, f).value in blobs
    requires blobs[DocumentId(g, f).value].references == Some([id])
    ensures var after := BlobsWithoutReference(blobs, DocumentId(g, f), id);
            DocumentId(WithDocument(g, f, None), f) == DocumentId(g, f) && DocumentId(g, f).value !in after
  {
    WithDocumentProperties(g, f, None);
  }

  /**
   * The six setters: a null id is refused by the lookup and an unknown
   * group is "Group not found". Otherwise the group's reference to its
   * current document is dropped, non-empty bytes become a new blob of the
   * field's type referenced by the group, and the group is saved through
   * updateGroup with the new blob's id (or null) in that field.
   */
  method SetGroupDocument(db: Repositories, groupId: Option<Uuid>, f: DocumentField, bytes: seq<Byte>, freshId: Uuid)
    returns (r: Result<Group>)
    requires db.Valid() && freshId !in db.blobs
    modifies db`groups, db`blobs
    ensures db.Valid()
    ensures groupId.None? ==> r == Err(IllegalArgument)
    ensures groupId.Some? && IndexOfGroup(old(db.groups), groupId.value).None? ==> r == Err(GroupNotFound)
    ensures r.Err? ==> db.groups == old(db.groups) && db.blobs == old(db.blobs)
    ensures groupId.Some? && IndexOfGroup(old(db.groups), groupId.value).Some? ==>
              var i := IndexOfGroup(old(db.groups), groupId.value).value;
              var g := old(db.groups)[i];
              var cleared := BlobsWithoutReference(old(db.blobs), DocumentId(g, f), groupId.value);
              r == Ok(WithDocument(g, f, if |bytes| > 0 then Some(freshId) else None)) &&
              db.groups == old(db.groups)[i := r.value] &&
              db.blobs == if |bytes| > 0
                          then cleared[freshId := NewBlob(freshId, None, None, DataTypeOf(f), bytes, groupId.value)]
                          else cleared
  {
    if groupId.None? {
      return Err(IllegalArgument);
    }
    var id := groupId.value;
    var at := IndexOfGroup(db.groups, id);
    if at.None? {
      return Err(GroupNotFound);
    }
    var g := db.groups[at.value];
    RemoveReference(db, DocumentId(g, f), id);
    var newId: Option<Uuid> := None;
    if |bytes| > 0 {
      var created := CreateData(db, None, None, DataTypeOf(f), bytes, id, freshId);
      newId := Some(created);
    }
    var saved := UpdateGroup(db, WithDocumentId(g, f, newId));
    r := Ok(saved.value.value);
  }
}
