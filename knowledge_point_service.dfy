/** The knowledge-point forest: creation with its level and sibling sort
    order, reparenting guarded by an upward ancestor walk, the guarded soft
    delete, the ordered listings and the three-level tree view. */
module KnowledgePointService {
  import opened Common
  import opened Domain
  import opened Store

  const MsgNotFound: string := "知识点不存在"
  const MsgParentNotFound: string := "父知识点不存在"
  const MsgUnderDescendant: string := "不能将节点移动到其子节点下"
  const MsgHasChildren: string := "该知识点下还有子知识点,不能删除"
  const MsgHasQuestions: string := "该知识点已关联题目,不能删除"
  const MsgCreated: string := "知识点创建成功"
  const MsgUpdated: string := "知识点更新成功"
  const MsgDeleted: string := "知识点删除成功"

  // ---------------------------------------------------------------------
  // Lookups and the parent walk
  // ---------------------------------------------------------------------

  /** Position of the visible knowledge point with this id. */
  function KpIndex(kps: seq<KnowledgePoint>, id: Id): (r: Option<nat>)
    ensures r.Some? ==> r.value < |kps| && kps[r.value].id == id && !kps[r.value].isDeleted
    ensures r.Some? ==> forall j :: 0 <= j < r.value ==> kps[j].id != id || kps[j].isDeleted
    ensures r.None? ==> forall j :: 0 <= j < |kps| ==> kps[j].id != id || kps[j].isDeleted
  {
    FirstIndex(kps, (k: KnowledgePoint) => k.id == id && !k.isDeleted)
  }

  /** GetByIdAsync under the soft-delete filter. */
  function FindKp(kps: seq<KnowledgePoint>, id: Id): (r: Option<KnowledgePoint>)
    ensures r.Some? ==> r.value in kps && r.value.id == id && !r.value.isDeleted
    ensures r.None? ==> forall j :: 0 <= j < |kps| ==> kps[j].id != id || kps[j].isDeleted
  {
    match KpIndex(kps, id)
    case None => None
    case Some(i) => Some(kps[i])
  }

  /** The parent id the walk reads at a node: unset for a root and for an id
      that finds no node. */
  function ParentOf(kps: seq<KnowledgePoint>, id: Id): Option<Id> {
    match FindKp(kps, id)
    case None => None
    case Some(k) => k.parentId
  }

  /** The parent links of a table, as the walk reads them. */
  function ParentFn(kps: seq<KnowledgePoint>): Id -> Option<Id> {
    (x: Id) => ParentOf(kps, x)
  }

  /** Where the upward walk from `id` along `parent` is after k steps (unset
      once it has stopped). */
  function Up(parent: Id -> Option<Id>, id: Id, k: nat): Option<Id>
    decreases k
  {
    if k == 0 then Some(id)
    else match Up(parent, id, k - 1)
      case None => None
      case Some(x) => parent(x)
  }

  /** The walk from `id` has stopped within n steps. */
  predicate WalkEnds(parent: Id -> Option<Id>, id: Id, n: nat) {
    Up(parent, id, n).None?
  }

  /** `a` is met as a parent id somewhere on the upward walk from `d`. */
  ghost predicate ProperAncestor(parent: Id -> Option<Id>, a: Id, d: Id) {
    exists k: nat :: 1 <= k && Up(parent, d, k) == Some(a)
  }

  /** A stopped walk stays stopped. */
  lemma {:induction false} UpStaysStopped(parent: Id -> Option<Id>, id: Id, n: nat, m: nat)
    requires n <= m && Up(parent, id, n).None?
    ensures Up(parent, id, m).None?
    decreases m - n
  {
    if n < m {
      UpStaysStopped(parent, id, n, m - 1);
    }
  }

  /** A walk that ends within n steps is still going only before step n. */
  lemma UpBeforeBound(parent: Id -> Option<Id>, id: Id, n: nat, m: nat)
    requires WalkEnds(parent, id, n) && Up(parent, id, m).Some?
    ensures m < n
  {
    if m >= n {
      UpStaysStopped(parent, id, n, m);
    }
  }

  /** Walking j steps then m more is walking j + m steps. */
  lemma {:induction false} UpCompose(parent: Id -> Option<Id>, id: Id, j: nat, m: nat)
    ensures Up(parent, id, j + m) == match Up(parent, id, j) case None => None case Some(y) => Up(parent, y, m)
    decreases m
  {
    if m > 0 {
      UpCompose(parent, id, j, m - 1);
    }
  }

  /** A walk that returns to its start after c >= 1 steps never stops. */
  lemma {:induction false} CycleWalk(parent: Id -> Option<Id>, id: Id, c: nat, b: nat)
    requires c >= 1 && Up(parent, id, c) == Some(id)
    ensures Up(parent, id, b).Some?
    decreases b
  {
    if b >= c {
      CycleWalk(parent, id, c, b - c);
      UpCompose(parent, id, c, b - c);
    } else if Up(parent, id, b).None? {
      UpStaysStopped(parent, id, b, c);
    }
  }

  /** A walk that stops never comes back to where it started. */
  lemma NoReturn(parent: Id -> Option<Id>, id: Id, b: nat, c: nat)
    requires WalkEnds(parent, id, b) && c >= 1
    ensures Up(parent, id, c) != Some(id)
  {
    if Up(parent, id, c) == Some(id) {
      CycleWalk(parent, id, c, b);
    }
  }

  /** IsDescendantAsync(ancestorId, descendantId): walks parent links upward
      from the descendant and answers whether the ancestor id is met as a
      parent id. The walk must end (on a parent cycle that misses the
      ancestor the source loops forever); `bound` is a number of steps
      within which it does. */
  /** One step of the walk reads the parent id of the node it is at. */
  lemma UpStep(kps: seq<KnowledgePoint>, id: Id, steps: nat, kp: Option<KnowledgePoint>)
    requires Up(ParentFn(kps), id, steps).Some? && kp == FindKp(kps, Up(ParentFn(kps), id, steps).value)
    ensures Up(ParentFn(kps), id, steps + 1) == if kp.Some? then kp.value.parentId else None
  {
  }

  /** Not meeting `a` in the first `steps` steps nor at the next one. */
  lemma NotMetExtends(parent: Id -> Option<Id>, a: Id, d: Id, steps: nat)
    requires forall j: nat :: 1 <= j <= steps ==> Up(parent, d, j) != Some(a)
    requires Up(parent, d, steps + 1) != Some(a)
    ensures forall j: nat :: 1 <= j <= steps + 1 ==> Up(parent, d, j) != Some(a)
  {
  }

  /** A walk that stops after `steps + 1` steps without meeting `a` never meets it. */
  lemma NotMetOnStoppedWalk(parent: Id -> Option<Id>, a: Id, d: Id, steps: nat)
    requires Up(parent, d, steps + 1).None?
    requires forall j: nat :: 1 <= j <= steps ==> Up(parent, d, j) != Some(a)
    ensures !ProperAncestor(parent, a, d)
  {
    forall k: nat | 1 <= k ensures Up(parent, d, k) != Some(a) {
      if k > steps {
        UpStaysStopped(parent, d, steps + 1, k);
      }
    }
  }

  /** IsDescendantAsync(ancestorId, descendantId): walks parent links upward
      from the descendant and answers whether the ancestor id is met as a
      parent id. The walk must end (on a parent cycle that misses the
      ancestor the source loops forever); `bound` is a number of steps
      within which it does. */
  method IsDescendant(db: Database, ancestorId: Id, descendantId: Id, ghost bound: nat) returns (r: bool)
    requires WalkEnds(ParentFn(db.knowledgePoints), descendantId, bound)
    ensures r <==> ProperAncestor(ParentFn(db.knowledgePoints), ancestorId, descendantId)
  {
    var kps := db.knowledgePoints;
    ghost var parent := ParentFn(kps);
    var kp := FindKp(kps, descendantId);
    ghost var steps: nat := 0;
    UpBeforeBound(parent, descendantId, bound, 0);
    while kp.Some? && kp.value.parentId.Some?
      invariant Up(parent, descendantId, steps).Some? && kp == FindKp(kps, Up(parent, descendantId, steps).value)
      invariant steps < bound
      invariant forall j: nat :: 1 <= j <= steps ==> Up(parent, descendantId, j) != Some(ancestorId)
      decreases bound - steps
    {
      UpStep(kps, descendantId, steps, kp);
      if kp.value.parentId.value == ancestorId {
        assert Up(parent, descendantId, steps + 1) == Some(ancestorId);
        return true;
      }
      NotMetExtends(parent, ancestorId, descendantId, steps);
      kp := FindKp(kps, kp.value.parentId.value);
      steps := steps + 1;
      UpBeforeBound(parent, descendantId, bound, steps);
    }
    UpStep(kps, descendantId, steps, kp);
    NotMetOnStoppedWalk(parent, ancestorId, descendantId, steps);
    return false;
  }

  // ---------------------------------------------------------------------
  // Create
  // ---------------------------------------------------------------------

  predicate IsSiblingUnder(k: KnowledgePoint, parentId: Option<Id>) {
    !k.isDeleted && k.parentId == parentId
  }

  /** MaxAsync(k => (int?)k.SortOrder) over the visible nodes with this parent. */
  function MaxSortOrder(kps: seq<KnowledgePoint>, parentId: Option<Id>): (r: Option<int>)
    ensures r.None? <==> forall j :: 0 <= j < |kps| ==> !IsSiblingUnder(kps[j], parentId)
    ensures r.Some? ==> exists j :: 0 <= j < |kps| && IsSiblingUnder(kps[j], parentId) && kps[j].sortOrder == r.value
    ensures r.Some? ==> forall j :: 0 <= j < |kps| && IsSiblingUnder(kps[j], parentId) ==> kps[j].sortOrder <= r.value
    decreases |kps|
  {
    if kps == [] then None
    else
      var rest := MaxSortOrder(kps[..|kps| - 1], parentId);
      var last := kps[|kps| - 1];
      if !IsSiblingUnder(last, parentId) then rest
      else if rest.None? || rest.value < last.sortOrder then Some(last.sortOrder)
      else rest
  }

  /** GetNextSortOrderAsync: one past the largest sibling order, 1 without siblings. */
  function NextSortOrder(kps: seq<KnowledgePoint>, parentId: Option<Id>): (r: int)
    ensures forall j :: 0 <= j < |kps| && IsSiblingUnder(kps[j], parentId) ==> kps[j].sortOrder < r
    ensures (forall j :: 0 <= j < |kps| ==> !IsSiblingUnder(kps[j], parentId)) ==> r == 1
    ensures (exists j :: 0 <= j < |kps| && IsSiblingUnder(kps[j], parentId)) ==>
              exists j :: 0 <= j < |kps| && IsSiblingUnder(kps[j], parentId) && kps[j].sortOrder == r - 1
  {
    match MaxSortOrder(kps, parentId)
    case None => 1
    case Some(m) => m + 1
  }

  datatype KpOutcome<T> = KpOutcome(result: Result<T>, kps: seq<KnowledgePoint>)

  /** CreateAsync on the knowledge-point table. */
  function CreateSpec(kps: seq<KnowledgePoint>, name: string, description: Option<string>,
                      parentId: Option<Id>, now: Time): (o: KpOutcome<KnowledgePoint>)
    ensures o.result.Failure? ==> o.kps == kps
  {
    match LevelUnder(kps, parentId)
    case Failure(message) => KpOutcome(Failure(message), kps)
    case Success(level, _) =>
      var kp := KnowledgePoint(FreshId(KnowledgePointIds(kps)), name, description, parentId,
                               level, NextSortOrder(kps, parentId), now, None, false);
      KpOutcome(Success(kp, MsgCreated), kps + [kp])
  }

  /** The level of a node placed under parentId: 1 for a root, one below an
      existing parent; a missing parent is an error. */
  function LevelUnder(kps: seq<KnowledgePoint>, parentId: Option<Id>): (r: Result<int>)
    ensures parentId.None? ==> r == Success(1, "")
    ensures parentId.Some? && FindKp(kps, parentId.value).None? ==> r == Failure(MsgParentNotFound)
    ensures parentId.Some? && FindKp(kps, parentId.value).Some? ==>
              r == Success(FindKp(kps, parentId.value).value.level + 1, "")
  {
    if parentId.None? then Success(1, "")
    else match FindKp(kps, parentId.value)
      case None => Failure(MsgParentNotFound)
      case Some(parent) => Success(parent.level + 1, "")
  }

  /** A created node is level 1 without a parent and one below its parent
      otherwise, is ordered after every sibling (1 without siblings), gets an
      id no row has, and is appended; a missing parent adds nothing. */
  lemma CreatePlacesNode(kps: seq<KnowledgePoint>, name: string, description: Option<string>,
                         parentId: Option<Id>, now: Time)
    ensures var o := CreateSpec(kps, name, description, parentId, now);
            && (parentId.Some? && FindKp(kps, parentId.value).None? ==>
                  o.result == Failure(MsgParentNotFound) && o.kps == kps)
            && (parentId.None? || FindKp(kps, parentId.value).Some? ==>
                  && o.result.Success? && o.kps == kps + [o.result.data]
                  && o.result.data.name == name && o.result.data.parentId == parentId
                  && o.result.data.level == (if parentId.None? then 1 else FindKp(kps, parentId.value).value.level + 1)
                  && o.result.data.sortOrder == NextSortOrder(kps, parentId)
                  && !o.result.data.isDeleted
                  && (forall j :: 0 <= j < |kps| ==> kps[j].id != o.result.data.id))
  {
    var ids := KnowledgePointIds(kps);
    assert forall j :: 0 <= j < |kps| ==> ids[j] == kps[j].id;
  }

  /** CreateAsync. */
  method Create(db: Database, name: string, description: Option<string>, parentId: Option<Id>, now: Time)
    returns (r: Result<KnowledgePoint>)
    modifies db`knowledgePoints
    ensures var o := CreateSpec(old(db.knowledgePoints), name, description, parentId, now);
            r == o.result && db.knowledgePoints == o.kps
  {
    var level := 1;
    if parentId.Some? {
      var parent := FindKp(db.knowledgePoints, parentId.value);
      if parent.None? {
        return Failure(MsgParentNotFound);
      }
      level := parent.value.level + 1;
    }
    var kp := KnowledgePoint(FreshId(KnowledgePointIds(db.knowledgePoints)), name, description, parentId,
                             level, NextSortOrder(db.knowledgePoints, parentId), now, None, false);
    db.knowledgePoints := db.knowledgePoints + [kp];
    return Success(kp, MsgCreated);
  }

  // ---------------------------------------------------------------------
  // Update
  // ---------------------------------------------------------------------

  /** UpdateAsync on the knowledge-point table. The descendant check is the
      upward walk, which does not count the node itself. */
  ghost function UpdateSpec(kps: seq<KnowledgePoint>, id: Id, name: string, description: Option<string>,
                            parentId: Option<Id>, now: Time): (o: KpOutcome<KnowledgePoint>)
    ensures o.result.Failure? ==> o.kps == kps
  {
    match KpIndex(kps, id)
    case None => KpOutcome(Failure(MsgNotFound), kps)
    case Some(i) =>
      var kp := kps[i];
      if parentId != kp.parentId && parentId.Some? && ProperAncestor(ParentFn(kps), id, parentId.value) then
        KpOutcome(Failure(MsgUnderDescendant), kps)
      else
        match (if parentId != kp.parentId then LevelUnder(kps, parentId) else Success(kp.level, ""))
        case Failure(message) => KpOutcome(Failure(message), kps)
        case Success(level, _) => Rewrite(kps, i, name, description, parentId, level, now)
  }

  /** The successful end of UpdateAsync: row i gets the new fields. */
  function Rewrite(kps: seq<KnowledgePoint>, i: nat, name: string, description: Option<string>,
                   parentId: Option<Id>, level: int, now: Time): (o: KpOutcome<KnowledgePoint>)
    requires i < |kps|
    ensures o.result.Success? && |o.kps| == |kps|
    ensures o.kps[i] == o.result.data
    ensures forall j :: 0 <= j < |kps| && j != i ==> o.kps[j] == kps[j]
    ensures o.result.data == kps[i].(name := name, description := description, parentId := parentId,
                                     level := level, updatedAt := Some(now))
  {
    var kp := kps[i].(name := name, description := description, parentId := parentId,
                      level := level, updatedAt := Some(now));
    KpOutcome(Success(kp, MsgUpdated), kps[i := kp])
  }

  /** A new parent that lies below the node is refused and nothing changes. */
  lemma UpdateRejectsDescendant(kps: seq<KnowledgePoint>, id: Id, name: string, description: Option<string>,
                                p: Id, now: Time)
    requires FindKp(kps, id).Some? && FindKp(kps, id).value.parentId != Some(p)
    requires ProperAncestor(ParentFn(kps), id, p)
    ensures UpdateSpec(kps, id, name, description, Some(p), now) == KpOutcome(Failure(MsgUnderDescendant), kps)
  {
  }

  /** A successful update overwrites name, description and parent. The level
      is recomputed from the new parent when the parent changed and kept
      otherwise; no other row, and so no descendant's level, is touched. */
  lemma UpdateRewritesOnlyTheNode(kps: seq<KnowledgePoint>, id: Id, name: string, description: Option<string>,
                                  parentId: Option<Id>, now: Time)
    requires UpdateSpec(kps, id, name, description, parentId, now).result.Success?
    ensures var o := UpdateSpec(kps, id, name, description, parentId, now);
            var i := KpIndex(kps, id).value;
            var kp := o.result.data;
            && |o.kps| == |kps| && o.kps[i] == kp
            && (forall j :: 0 <= j < |kps| && j != i ==> o.kps[j] == kps[j])
            && kp.id == id && !kp.isDeleted && kp.name == name && kp.description == description
            && kp.parentId == parentId && kp.updatedAt == Some(now) && kp.sortOrder == kps[i].sortOrder
            && (parentId == kps[i].parentId ==> kp.level == kps[i].level)
            && (parentId != kps[i].parentId && parentId.None? ==> kp.level == 1)
            && (parentId != kps[i].parentId && parentId.Some? ==>
                  kp.level == FindKp(kps, parentId.value).value.level + 1)
  {
  }

  /** After a successful update the node is found at the same row and reads
      the new parent; every other id reads the parent it had. */
  lemma UpdatedParents(kps: seq<KnowledgePoint>, id: Id, name: string, description: Option<string>,
                       parentId: Option<Id>, now: Time)
    requires UpdateSpec(kps, id, name, description, parentId, now).result.Success?
    ensures var kps' := UpdateSpec(kps, id, name, description, parentId, now).kps;
            && ParentOf(kps', id) == parentId
            && forall y: Id :: y != id ==> ParentOf(kps', y) == ParentOf(kps, y)
  {
    UpdateRewritesOnlyTheNode(kps, id, name, description, parentId, now);
    var kps' := UpdateSpec(kps, id, name, description, parentId, now).kps;
    var i := KpIndex(kps, id).value;
    assert KpIndex(kps', id) == Some(i) by {
      assert kps'[i].id == id && !kps'[i].isDeleted;
      assert forall j :: 0 <= j < i ==> kps'[j] == kps[j];
    }
    forall y: Id | y != id ensures ParentOf(kps', y) == ParentOf(kps, y) {
      SameVisibleRow(kps, kps', i, y);
    }
  }

  /** Rewriting row i with a row of the same id and flag leaves every other id's lookup. */
  lemma SameVisibleRow(kps: seq<KnowledgePoint>, kps': seq<KnowledgePoint>, i: nat, y: Id)
    requires i < |kps| && |kps'| == |kps| && kps'[i].id == kps[i].id && !kps'[i].isDeleted && !kps[i].isDeleted
    requires forall j :: 0 <= j < |kps| && j != i ==> kps'[j] == kps[j]
    requires y != kps[i].id
    ensures FindKp(kps', y) == FindKp(kps, y)
  {
    var a := KpIndex(kps, y);
    var b := KpIndex(kps', y);
    if a.Some? {
      assert kps'[a.value] == kps[a.value];
    }
    if b.Some? {
      assert kps'[b.value] == kps[b.value];
    }
  }

  /** A node whose upward walk ends is never met again on it, so a request to
      make a node its own parent passes the descendant check, and the update
      stores a parent link from the node to itself: afterwards the walk from
      it never ends. */
  lemma SelfParentPassesCheck(kps: seq<KnowledgePoint>, id: Id, name: string, description: Option<string>,
                              now: Time, bound: nat)
    requires FindKp(kps, id).Some? && FindKp(kps, id).value.parentId != Some(id)
    requires WalkEnds(ParentFn(kps), id, bound)
    ensures var o := UpdateSpec(kps, id, name, description, Some(id), now);
            && o.result.Success? && o.result.data.parentId == Some(id)
            && forall n: nat :: !WalkEnds(ParentFn(o.kps), id, n)
  {
    forall k: nat | 1 <= k ensures Up(ParentFn(kps), id, k) != Some(id) {
      NoReturn(ParentFn(kps), id, bound, k);
    }
    assert !ProperAncestor(ParentFn(kps), id, id);
    var o := UpdateSpec(kps, id, name, description, Some(id), now);
    UpdatedParents(kps, id, name, description, Some(id), now);
    assert Up(ParentFn(o.kps), id, 1) == Some(id);
    forall n: nat ensures !WalkEnds(ParentFn(o.kps), id, n) {
      CycleWalk(ParentFn(o.kps), id, 1, n);
    }
  }

  /** UpdateAsync with the intended guard: a new parent equal to the node is
      refused like one below it. */
  ghost function UpdateSpecGuarded(kps: seq<KnowledgePoint>, id: Id, name: string, description: Option<string>,
                                   parentId: Option<Id>, now: Time): (o: KpOutcome<KnowledgePoint>)
    ensures o.result.Failure? ==> o.kps == kps
  {
    match KpIndex(kps, id)
    case None => KpOutcome(Failure(MsgNotFound), kps)
    case Some(i) =>
      var kp := kps[i];
      if parentId != kp.parentId && parentId.Some? && (parentId.value == id || ProperAncestor(ParentFn(kps), id, parentId.value)) then
        KpOutcome(Failure(MsgUnderDescendant), kps)
      else UpdateSpec(kps, id, name, description, parentId, now)
  }

  /** With the guard, making a node its own parent is refused and nothing
      changes; every other request behaves as in the source. */
  lemma GuardedRefusesSelfParent(kps: seq<KnowledgePoint>, id: Id, name: string, description: Option<string>,
                                 parentId: Option<Id>, now: Time)
    ensures FindKp(kps, id).Some? && FindKp(kps, id).value.parentId != Some(id) && parentId == Some(id) ==>
      UpdateSpecGuarded(kps, id, name, description, parentId, now) == KpOutcome(Failure(MsgUnderDescendant), kps)
    ensures parentId != Some(id) ==>
      UpdateSpecGuarded(kps, id, name, description, parentId, now) == UpdateSpec(kps, id, name, description, parentId, now)
  {
  }

  /** Every walk along `parent` ends within `bound` steps. */
  ghost predicate AllWalksEnd(parent: Id -> Option<Id>, bound: nat) {
    forall x: Id :: WalkEnds(parent, x, bound)
  }

  /** Two parent functions agree everywhere except possibly at `id`. */
  ghost predicate SameParentsExcept(parent: Id -> Option<Id>, parent': Id -> Option<Id>, id: Id) {
    forall y: Id :: y != id ==> parent'(y) == parent(y)
  }

  /** A walk that has not visited `id` before step k is the same along both. */
  lemma {:induction false} WalkAgreesUntil(parent: Id -> Option<Id>, parent': Id -> Option<Id>, id: Id, x: Id, k: nat)
    requires SameParentsExcept(parent, parent', id)
    requires forall j: nat :: j < k ==> Up(parent, x, j) != Some(id)
    ensures Up(parent', x, k) == Up(parent, x, k)
  {
    if k > 0 {
      WalkAgreesUntil(parent, parent', id, x, k - 1);
    }
  }

  /** The earliest step at which the walk from x is at id. */
  lemma FirstVisit(parent: Id -> Option<Id>, x: Id, id: Id, j: nat) returns (first: nat)
    requires Up(parent, x, j) == Some(id)
    ensures first <= j && Up(parent, x, first) == Some(id)
    ensures forall m: nat :: m < first ==> Up(parent, x, m) != Some(id)
    decreases j
  {
    if exists m: nat :: m < j && Up(parent, x, m) == Some(id) {
      var m: nat :| m < j && Up(parent, x, m) == Some(id);
      first := FirstVisit(parent, x, id, m);
    } else {
      first := j;
    }
  }

  /** On a walk from the node that ends, its old parent's walk never visits
      it; nor does the walk of a new parent that is neither the node nor
      below it. */
  lemma NewParentNeverReachesNode(parent: Id -> Option<Id>, id: Id, p: Id, b: nat, m: nat)
    requires WalkEnds(parent, id, b)
    requires parent(id) == Some(p) || (p != id && !ProperAncestor(parent, id, p))
    ensures Up(parent, p, m) != Some(id)
  {
    if parent(id) == Some(p) {
      UpCompose(parent, id, 1, m);
      NoReturn(parent, id, b, m + 1);
    } else if m >= 1 {
      assert !(1 <= m && Up(parent, p, m) == Some(id));
    }
  }

  /** After the move, the walk from the moved node's new parent ends within
      `bound` steps and so does the walk from the node itself, one step later. */
  lemma MovedNodeWalkEnds(parent: Id -> Option<Id>, parent': Id -> Option<Id>, id: Id, bound: nat)
    requires AllWalksEnd(parent, bound)
    requires SameParentsExcept(parent, parent', id)
    requires parent'(id) == parent(id) || parent'(id).None? ||
             (parent'(id).value != id && !ProperAncestor(parent, id, parent'(id).value))
    ensures WalkEnds(parent', id, bound + 1)
  {
    UpCompose(parent', id, 1, bound);
    if parent'(id).Some? {
      var p := parent'(id).value;
      assert WalkEnds(parent, id, bound);
      assert parent(id) == Some(p) || (p != id && !ProperAncestor(parent, id, p));
      forall m: nat ensures Up(parent, p, m) != Some(id) {
        NewParentNeverReachesNode(parent, id, p, bound, m);
      }
      WalkAgreesUntil(parent, parent', id, p, bound);
      assert WalkEnds(parent, p, bound);
    }
  }

  /** The walk from x after the move ends: it either never meets the moved
      node, or meets it and then follows the old walk from the new parent,
      which never meets the node again. */
  lemma NewWalkEnds(parent: Id -> Option<Id>, parent': Id -> Option<Id>, id: Id, x: Id, bound: nat)
    requires AllWalksEnd(parent, bound)
    requires SameParentsExcept(parent, parent', id)
    requires parent'(id) == parent(id) || parent'(id).None? ||
             (parent'(id).value != id && !ProperAncestor(parent, id, parent'(id).value))
    ensures WalkEnds(parent', x, 2 * bound + 1)
  {
    var n := 2 * bound + 1;
    if forall j: nat :: j < bound ==> Up(parent, x, j) != Some(id) {
      WalkAgreesUntil(parent, parent', id, x, bound);
      assert WalkEnds(parent, x, bound);
      UpStaysStopped(parent', x, bound, n);
    } else {
      var j: nat :| j < bound && Up(parent, x, j) == Some(id);
      var first := FirstVisit(parent, x, id, j);
      WalkAgreesUntil(parent, parent', id, x, first);
      MovedNodeWalkEnds(parent, parent', id, bound);
      UpCompose(parent', x, first, bound + 1);
      UpStaysStopped(parent', x, first + bound + 1, n);
    }
  }

  /** The guarded update keeps the table free of endless walks: if every walk
      ended within `bound` steps before, every walk ends within
      2 * bound + 1 steps after. */
  lemma GuardedUpdateKeepsWalksFinite(kps: seq<KnowledgePoint>, id: Id, name: string, description: Option<string>,
                                      parentId: Option<Id>, now: Time, bound: nat)
    requires AllWalksEnd(ParentFn(kps), bound)
    ensures AllWalksEnd(ParentFn(UpdateSpecGuarded(kps, id, name, description, parentId, now).kps), 2 * bound + 1)
  {
    var o := UpdateSpecGuarded(kps, id, name, description, parentId, now);
    var parent := ParentFn(kps);
    var n := 2 * bound + 1;
    if o.result.Success? {
      assert o == UpdateSpec(kps, id, name, description, parentId, now);
      UpdatedParents(kps, id, name, description, parentId, now);
      var parent' := ParentFn(o.kps);
      assert SameParentsExcept(parent, parent', id);
      assert parent'(id) == parentId;
      assert parent(id) == FindKp(kps, id).value.parentId;
      forall x: Id ensures WalkEnds(parent', x, n) {
        NewWalkEnds(parent, parent', id, x, bound);
      }
    } else {
      forall x: Id ensures WalkEnds(parent, x, n) {
        assert WalkEnds(parent, x, bound);
        UpStaysStopped(parent, x, bound, n);
      }
    }
  }

  /** The parent foreign key (Restrict, ApplicationDbContext.cs:54-57): every
      parent id names a row of the table, soft-deleted rows included. */
  predicate ParentsExist(kps: seq<KnowledgePoint>) {
    forall j :: 0 <= j < |kps| && kps[j].parentId.Some? ==> kps[j].parentId.value in KnowledgePointIds(kps)
  }

  /** Appending a visible row with an id no row has: every other id is looked
      up as before, and the new id finds the new row. */
  lemma AppendedRowLookup(kps: seq<KnowledgePoint>, kp: KnowledgePoint, y: Id)
    requires !kp.isDeleted && forall j :: 0 <= j < |kps| ==> kps[j].id != kp.id
    ensures y != kp.id ==> FindKp(kps + [kp], y) == FindKp(kps, y)
    ensures FindKp(kps + [kp], kp.id) == Some(kp)
  {
    var s := kps + [kp];
    var a := KpIndex(kps, y);
    var b := KpIndex(s, y);
    if a.Some? {
      assert s[a.value] == kps[a.value];
    }
    if b.Some? && b.value < |kps| {
      assert s[b.value] == kps[b.value];
    }
    assert s[|kps|] == kp;
  }

  /** Under the key, no parent link leads to an id above every row's id. */
  lemma ParentsBelowFresh(kps: seq<KnowledgePoint>, n: Id, y: Id)
    requires ParentsExist(kps) && forall j :: 0 <= j < |kps| ==> kps[j].id < n
    ensures ParentOf(kps, y) != Some(n)
  {
    var f := FindKp(kps, y);
    if f.Some? && f.value.parentId.Some? {
      var j :| 0 <= j < |kps| && kps[j] == f.value;
      var ids := KnowledgePointIds(kps);
      var m :| 0 <= m < |ids| && ids[m] == f.value.parentId.value;
      assert ids[m] == kps[m].id;
    }
  }

  /** A walk that starts elsewhere never reaches an id no link leads to. */
  lemma {:induction false} NeverReaches(parent: Id -> Option<Id>, n: Id, x: Id, k: nat)
    requires x != n && forall y: Id :: parent(y) != Some(n)
    ensures Up(parent, x, k) != Some(n)
  {
    if k > 0 {
      NeverReaches(parent, n, x, k - 1);
    }
  }

  /** A created node's parent names a row, and so every parent id still does. */
  lemma CreateKeepsParents(kps: seq<KnowledgePoint>, name: string, description: Option<string>,
                           parentId: Option<Id>, now: Time)
    requires ParentsExist(kps)
    ensures ParentsExist(CreateSpec(kps, name, description, parentId, now).kps)
  {
    var o := CreateSpec(kps, name, description, parentId, now);
    if o.result.Success? {
      CreatePlacesNode(kps, name, description, parentId, now);
      assert o.kps == kps + [o.result.data];
      var ids := KnowledgePointIds(kps);
      var ids' := KnowledgePointIds(o.kps);
      forall j | 0 <= j < |o.kps| && o.kps[j].parentId.Some? ensures o.kps[j].parentId.value in ids' {
        if j < |kps| {
          assert o.kps[j] == kps[j];
          var m :| 0 <= m < |ids| && ids[m] == kps[j].parentId.value;
          assert ids'[m] == ids[m];
        } else {
          var p := FindKp(kps, parentId.value).value;
          var m :| 0 <= m < |kps| && kps[m] == p;
          assert ids'[m] == p.id;
        }
      }
    }
  }

  /** The parent links after a creation: only the new node's differs, no old
      link leads to it, and its own leads to the requested parent. */
  lemma CreatedLinks(kps: seq<KnowledgePoint>, name: string, description: Option<string>,
                     parentId: Option<Id>, now: Time)
    requires ParentsExist(kps) && CreateSpec(kps, name, description, parentId, now).result.Success?
    ensures var o := CreateSpec(kps, name, description, parentId, now);
            var n := o.result.data.id;
            && SameParentsExcept(ParentFn(kps), ParentFn(o.kps), n)
            && (forall y: Id :: ParentFn(kps)(y) != Some(n))
            && ParentFn(o.kps)(n) == parentId
            && parentId != Some(n)
  {
    var o := CreateSpec(kps, name, description, parentId, now);
    CreatePlacesNode(kps, name, description, parentId, now);
    var kp := o.result.data;
    var n := kp.id;
    assert o.kps == kps + [kp];
    var ids := KnowledgePointIds(kps);
    assert n == FreshId(ids);
    assert forall j :: 0 <= j < |kps| ==> ids[j] == kps[j].id;
    forall y: Id ensures ParentOf(kps, y) != Some(n) {
      ParentsBelowFresh(kps, n, y);
    }
    forall y: Id | y != n ensures ParentOf(o.kps, y) == ParentOf(kps, y) {
      AppendedRowLookup(kps, kp, y);
    }
    AppendedRowLookup(kps, kp, n);
  }

  /** Adding a node no link leads to: every walk that ended within `bound`
      steps still does, and the new node's ends one step later. */
  lemma AppendedNodeWalksEnd(parent: Id -> Option<Id>, parent': Id -> Option<Id>, n: Id, bound: nat)
    requires AllWalksEnd(parent, bound) && SameParentsExcept(parent, parent', n)
    requires (forall y: Id :: parent(y) != Some(n)) && parent'(n) != Some(n)
    ensures AllWalksEnd(parent', bound + 1)
  {
    var b := bound + 1;
    forall x: Id ensures WalkEnds(parent', x, b) {
      if x != n {
        forall j: nat | j < bound ensures Up(parent, x, j) != Some(n) {
          NeverReaches(parent, n, x, j);
        }
        WalkAgreesUntil(parent, parent', n, x, bound);
        assert WalkEnds(parent, x, bound);
        UpStaysStopped(parent', x, bound, b);
      } else {
        UpCompose(parent', n, 1, bound);
        if parent'(n).Some? {
          var p := parent'(n).value;
          forall j: nat | j < bound ensures Up(parent, p, j) != Some(n) {
            NeverReaches(parent, n, p, j);
          }
          WalkAgreesUntil(parent, parent', n, p, bound);
          assert WalkEnds(parent, p, bound);
        }
      }
    }
  }

  /** Creating a node keeps the parent key, and keeps every walk finite: if
      every walk ended within `bound` steps before, every walk ends within
      bound + 1 steps after. */
  lemma CreateKeepsWalksFinite(kps: seq<KnowledgePoint>, name: string, description: Option<string>,
                               parentId: Option<Id>, now: Time, bound: nat)
    requires ParentsExist(kps) && AllWalksEnd(ParentFn(kps), bound)
    ensures var o := CreateSpec(kps, name, description, parentId, now);
            ParentsExist(o.kps) && AllWalksEnd(ParentFn(o.kps), bound + 1)
  {
    var o := CreateSpec(kps, name, description, parentId, now);
    CreateKeepsParents(kps, name, description, parentId, now);
    var b := bound + 1;
    if o.result.Failure? {
      forall x: Id ensures WalkEnds(ParentFn(kps), x, b) {
        assert WalkEnds(ParentFn(kps), x, bound);
        UpStaysStopped(ParentFn(kps), x, bound, b);
      }
    } else {
      CreatedLinks(kps, name, description, parentId, now);
      AppendedNodeWalksEnd(ParentFn(kps), ParentFn(o.kps), o.result.data.id, bound);
    }
  }

  /** An update keeps the parent key: the node keeps its id, and a changed
      parent is a node that was found. */
  lemma UpdateKeepsParents(kps: seq<KnowledgePoint>, id: Id, name: string, description: Option<string>,
                           parentId: Option<Id>, now: Time)
    requires ParentsExist(kps)
    ensures ParentsExist(UpdateSpecGuarded(kps, id, name, description, parentId, now).kps)
  {
    var o := UpdateSpecGuarded(kps, id, name, description, parentId, now);
    if o.result.Success? {
      assert o == UpdateSpec(kps, id, name, description, parentId, now);
      UpdateRewritesOnlyTheNode(kps, id, name, description, parentId, now);
      var i := KpIndex(kps, id).value;
      var ids := KnowledgePointIds(kps);
      var ids' := KnowledgePointIds(o.kps);
      assert ids' == ids by {
        assert forall j :: 0 <= j < |kps| ==> ids'[j] == o.kps[j].id && ids[j] == kps[j].id;
      }
      forall j | 0 <= j < |o.kps| && o.kps[j].parentId.Some? ensures o.kps[j].parentId.value in ids' {
        if j != i {
          assert o.kps[j] == kps[j];
        } else if parentId != kps[i].parentId {
          var p := FindKp(kps, parentId.value).value;
          var m :| 0 <= m < |kps| && kps[m] == p;
          assert ids[m] == p.id;
        }
      }
    }
  }

  /** UpdateAsync with the self-parent guard added (see UpdateSpecGuarded).
      When the descendant check runs, the walk from the new parent must end
      for the source to return; `bound` is a number of steps within which it
      does. */
  method Update(db: Database, id: Id, name: string, description: Option<string>, parentId: Option<Id>,
                now: Time, ghost bound: nat) returns (r: Result<KnowledgePoint>)
    requires (&& FindKp(db.knowledgePoints, id).Some? && parentId != FindKp(db.knowledgePoints, id).value.parentId
              && parentId.Some? && parentId.value != id)
             ==> WalkEnds(ParentFn(db.knowledgePoints), parentId.value, bound)
    modifies db`knowledgePoints
    ensures var o := UpdateSpecGuarded(old(db.knowledgePoints), id, name, description, parentId, now);
            r == o.result && db.knowledgePoints == o.kps
  {
    var index := KpIndex(db.knowledgePoints, id);
    if index.None? {
      return Failure(MsgNotFound);
    }
    var kp := db.knowledgePoints[index.value];
    var level := kp.level;
    if parentId != kp.parentId {
      if parentId.Some? {
        if parentId.value == id {
          return Failure(MsgUnderDescendant);
        }
        var below := IsDescendant(db, id, parentId.value, bound);
        if below {
          return Failure(MsgUnderDescendant);
        }
        var parent := FindKp(db.knowledgePoints, parentId.value);
        if parent.None? {
          return Failure(MsgParentNotFound);
        }
        level := parent.value.level + 1;
      } else {
        level := 1;
      }
    }
    kp := kp.(name := name, description := description, parentId := parentId, level := level, updatedAt := Some(now));
    db.knowledgePoints := db.knowledgePoints[index.value := kp];
    return Success(kp, MsgUpdated);
  }

  // ---------------------------------------------------------------------
  // Delete
  // ---------------------------------------------------------------------

  predicate HasVisibleChild(kps: seq<KnowledgePoint>, id: Id) {
    exists j :: 0 <= j < |kps| && !kps[j].isDeleted && kps[j].parentId == Some(id)
  }

  predicate HasQuestionLink(links: seq<QuestionKnowledgePoint>, id: Id) {
    exists j :: 0 <= j < |links| && links[j].knowledgePointId == id
  }

  /** DeleteAsync on the knowledge-point table. */
  function DeleteSpec(kps: seq<KnowledgePoint>, links: seq<QuestionKnowledgePoint>, id: Id, now: Time): (o: KpOutcome<bool>)
    ensures o.result.Failure? ==> o.kps == kps
  {
    match KpIndex(kps, id)
    case None => KpOutcome(Failure(MsgNotFound), kps)
    case Some(i) =>
      if HasVisibleChild(kps, id) then KpOutcome(Failure(MsgHasChildren), kps)
      else if HasQuestionLink(links, id) then KpOutcome(Failure(MsgHasQuestions), kps)
      else KpOutcome(Success(true, MsgDeleted), kps[i := kps[i].(isDeleted := true, updatedAt := Some(now))])
  }

  /** The primary key: no two rows share an id. */
  predicate IdsUnique(kps: seq<KnowledgePoint>) {
    forall a, b :: 0 <= a < b < |kps| ==> kps[a].id != kps[b].id
  }

  /** Delete succeeds exactly for a visible node with no visible child and no
      question link; it then only raises the row's soft-delete flag, and the
      node is no longer found. */
  lemma DeleteGuardsAndSoftDeletes(kps: seq<KnowledgePoint>, links: seq<QuestionKnowledgePoint>, id: Id, now: Time)
    requires IdsUnique(kps)
    ensures var o := DeleteSpec(kps, links, id, now);
            o.result.Success? <==> FindKp(kps, id).Some? && !HasVisibleChild(kps, id) && !HasQuestionLink(links, id)
    ensures var o := DeleteSpec(kps, links, id, now);
            o.result.Success? ==>
              var i := KpIndex(kps, id).value;
              && |o.kps| == |kps|
              && o.kps[i] == kps[i].(isDeleted := true, updatedAt := Some(now))
              && (forall j :: 0 <= j < |kps| && j != i ==> o.kps[j] == kps[j])
              && FindKp(o.kps, id).None?
  {
    var o := DeleteSpec(kps, links, id, now);
    if o.result.Success? {
      var i := KpIndex(kps, id).value;
      assert forall j :: 0 <= j < |kps| && j != i ==> kps[j].id != id;
    }
  }

  /** DeleteAsync. */
  method Delete(db: Database, id: Id, now: Time) returns (r: Result<bool>)
    modifies db`knowledgePoints
    ensures var o := DeleteSpec(old(db.knowledgePoints), db.questionKnowledgePoints, id, now);
            r == o.result && db.knowledgePoints == o.kps
  {
    var index := KpIndex(db.knowledgePoints, id);
    if index.None? {
      return Failure(MsgNotFound);
    }
    if HasVisibleChild(db.knowledgePoints, id) {
      return Failure(MsgHasChildren);
    }
    if HasQuestionLink(db.questionKnowledgePoints, id) {
      return Failure(MsgHasQuestions);
    }
    var kp := db.knowledgePoints[index.value];
    db.knowledgePoints := db.knowledgePoints[index.value := kp.(isDeleted := true, updatedAt := Some(now))];
    return Success(true, MsgDeleted);
  }

  // ---------------------------------------------------------------------
  // Listings and the tree view
  // ---------------------------------------------------------------------

  datatype KnowledgePointDto = KnowledgePointDto(
    id: Id, name: string, description: Option<string>, parentId: Option<Id>, level: int,
    children: seq<KnowledgePointDto>)

  /** MapToDto: the node's fields and an empty child list. */
  function MapToDto(kp: KnowledgePoint): (d: KnowledgePointDto)
    ensures d.children == []
    ensures d.id == kp.id && d.name == kp.name && d.description == kp.description
    ensures d.parentId == kp.parentId && d.level == kp.level
  {
    KnowledgePointDto(kp.id, kp.name, kp.description, kp.parentId, kp.level, [])
  }

  function MapAll(kps: seq<KnowledgePoint>): (r: seq<KnowledgePointDto>)
    ensures |r| == |kps| && forall k :: 0 <= k < |r| ==> r[k] == MapToDto(kps[k])
  {
    seq(|kps|, k requires 0 <= k < |kps| => MapToDto(kps[k]))
  }

  /** OrderBy(Level).ThenBy(SortOrder). */
  predicate LevelThenOrder(a: KnowledgePoint, b: KnowledgePoint) {
    a.level < b.level || (a.level == b.level && a.sortOrder <= b.sortOrder)
  }

  predicate BySortOrder(a: KnowledgePoint, b: KnowledgePoint) {
    a.sortOrder <= b.sortOrder
  }

  /** The visible nodes for which p holds, ordered by le. */
  function SortedVisible(kps: seq<KnowledgePoint>, p: KnowledgePoint -> bool,
                         le: (KnowledgePoint, KnowledgePoint) -> bool): (r: seq<KnowledgePoint>)
    requires TotalPreorder(le)
    ensures forall k :: multiset(r)[k] == if !k.isDeleted && p(k) then multiset(kps)[k] else 0
    ensures SortedBy(r, le)
  {
    var q := (k: KnowledgePoint) => !k.isDeleted && p(k);
    var found := Filter(kps, q);
    forall k ensures multiset(found)[k] == if !k.isDeleted && p(k) then multiset(kps)[k] else 0 {
      FilterMultiset(kps, q, k);
    }
    SortBy(found, le)
  }

  /** GetAllAsync: every visible node, by level and then sort order. */
  function GetAll(kps: seq<KnowledgePoint>): (r: seq<KnowledgePoint>)
    ensures forall k :: multiset(r)[k] == if !k.isDeleted then multiset(kps)[k] else 0
    ensures forall i, j :: 0 <= i < j < |r| ==> LevelThenOrder(r[i], r[j])
  {
    assert TotalPreorder((a: KnowledgePoint, b: KnowledgePoint) => LevelThenOrder(a, b));
    SortedVisible(kps, (k: KnowledgePoint) => true, (a: KnowledgePoint, b: KnowledgePoint) => LevelThenOrder(a, b))
  }

  /** GetRootKnowledgePointsAsync: the visible nodes without a parent, by sort order. */
  function GetRoots(kps: seq<KnowledgePoint>): (r: seq<KnowledgePoint>)
    ensures forall k :: multiset(r)[k] == if !k.isDeleted && k.parentId.None? then multiset(kps)[k] else 0
    ensures forall i, j :: 0 <= i < j < |r| ==> r[i].sortOrder <= r[j].sortOrder
  {
    assert TotalPreorder((a: KnowledgePoint, b: KnowledgePoint) => BySortOrder(a, b));
    SortedVisible(kps, (k: KnowledgePoint) => k.parentId.None?, (a: KnowledgePoint, b: KnowledgePoint) => BySortOrder(a, b))
  }

  /** GetChildrenAsync: the visible children of a node, by sort order. */
  function GetChildren(kps: seq<KnowledgePoint>, parentId: Id): (r: seq<KnowledgePoint>)
    ensures forall k :: multiset(r)[k] == if !k.isDeleted && k.parentId == Some(parentId) then multiset(kps)[k] else 0
    ensures forall i, j :: 0 <= i < j < |r| ==> r[i].sortOrder <= r[j].sortOrder
  {
    assert TotalPreorder((a: KnowledgePoint, b: KnowledgePoint) => BySortOrder(a, b));
    SortedVisible(kps, (k: KnowledgePoint) => k.parentId == Some(parentId), (a: KnowledgePoint, b: KnowledgePoint) => BySortOrder(a, b))
  }

  /** The Children navigation as loaded by Include: visible children, table order. */
  function ChildrenOf(kps: seq<KnowledgePoint>, id: Id): (r: seq<KnowledgePoint>)
    ensures forall k :: k in r <==> k in kps && !k.isDeleted && k.parentId == Some(id)
  {
    Filter(kps, (k: KnowledgePoint) => !k.isDeleted && k.parentId == Some(id))
  }

  /** MapToDtoWithTree over a node whose Children are loaded `depth` levels deep. */
  function TreeOf(kps: seq<KnowledgePoint>, kp: KnowledgePoint, depth: nat): (d: KnowledgePointDto)
    ensures d.id == kp.id && d.name == kp.name && d.description == kp.description
    ensures d.level == kp.level && d.parentId == kp.parentId
    ensures depth == 0 ==> d.children == []
    ensures depth > 0 ==>
              (&& |d.children| == |ChildrenOf(kps, kp.id)|
               && forall k :: 0 <= k < |d.children| ==> d.children[k].id == ChildrenOf(kps, kp.id)[k].id)
    decreases depth
  {
    var children := if depth == 0 then [] else ChildrenOf(kps, kp.id);
    KnowledgePointDto(kp.id, kp.name, kp.description, kp.parentId, kp.level,
                      seq(|children|, k requires 0 <= k < |children| => TreeOf(kps, children[k], depth - 1)))
  }

  /** Every path from the root of d has at most h nodes. */
  predicate HeightAtMost(d: KnowledgePointDto, h: nat)
    decreases d
  {
    h >= 1 && forall k :: 0 <= k < |d.children| ==> HeightAtMost(d.children[k], h - 1)
  }

  /** GetKnowledgeTreeAsync: the node with three levels of descendants
      (Include, ThenInclude, ThenInclude). */
  function GetKnowledgeTree(kps: seq<KnowledgePoint>, id: Id): (r: Result<KnowledgePointDto>)
    ensures FindKp(kps, id).None? <==> r == Failure(MsgNotFound)
  {
    match FindKp(kps, id)
    case None => Failure(MsgNotFound)
    case Some(kp) => Success(TreeOf(kps, kp, 3), "")
  }

  /** Each subtree of a tree view is the view, one level shallower, of the
      visible child at the same position. */
  lemma TreeChildIsSubtree(kps: seq<KnowledgePoint>, kp: KnowledgePoint, depth: nat, k: nat)
    requires depth > 0 && k < |TreeOf(kps, kp, depth).children|
    ensures k < |ChildrenOf(kps, kp.id)|
    ensures TreeOf(kps, kp, depth).children[k] == TreeOf(kps, ChildrenOf(kps, kp.id)[k], depth - 1)
  {
  }

  lemma {:induction false} TreeHeight(kps: seq<KnowledgePoint>, kp: KnowledgePoint, depth: nat)
    ensures HeightAtMost(TreeOf(kps, kp, depth), depth + 1)
    decreases depth
  {
    var d := TreeOf(kps, kp, depth);
    if depth > 0 {
      forall k | 0 <= k < |d.children| ensures HeightAtMost(d.children[k], depth) {
        TreeChildIsSubtree(kps, kp, depth, k);
        TreeHeight(kps, ChildrenOf(kps, kp.id)[k], depth - 1);
      }
    }
    HeightFromChildren(d, depth + 1);
  }

  /** A node is within height h when each child is within h - 1. */
  lemma HeightFromChildren(d: KnowledgePointDto, h: nat)
    requires h >= 1 && forall k :: 0 <= k < |d.children| ==> HeightAtMost(d.children[k], h - 1)
    ensures HeightAtMost(d, h)
  {
  }

  /** The tree view reaches at most three levels below the node, and its
      first level is exactly the node's visible children. */
  lemma KnowledgeTreeShape(kps: seq<KnowledgePoint>, id: Id)
    requires FindKp(kps, id).Some?
    ensures var d := GetKnowledgeTree(kps, id).data;
            && HeightAtMost(d, 4)
            && |d.children| == |ChildrenOf(kps, id)|
            && forall k :: 0 <= k < |d.children| ==> d.children[k].id == ChildrenOf(kps, id)[k].id
  {
    TreeHeight(kps, FindKp(kps, id).value, 3);
  }
}
