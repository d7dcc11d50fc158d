/** Roles in a project (src/roles.js): who has which role, and who may give which role to whom. Devices and
    cores go by number. All devices see the same records; what a replica has not synced is not modelled. An
    assignment is the stretches between its awaits, and other steps come in between. */
module ProjectRoles {
  import opened Options
  import opened Sets

  /** A role id in a record: one of the six known ones, or any other string. */
  datatype RoleId = CreatorId | CoordinatorId | MemberId | BlockedId | LeftId | NoRoleId | UnknownId(id: string)

  /** A role, as far as assigning roles goes. */
  datatype Role = Role(roleId: RoleId, roleAssignment: set<RoleId>)

  const ASSIGNABLE_TO_OTHERS: set<RoleId> := {CoordinatorId, MemberId, BlockedId}
  const ASSIGNABLE_TO_ANYONE: set<RoleId> := {CoordinatorId, MemberId, BlockedId, LeftId}

  const CREATOR_ROLE := Role(CreatorId, {CoordinatorId, MemberId, BlockedId})
  const COORDINATOR_ROLE := Role(CoordinatorId, {CoordinatorId, MemberId, BlockedId})
  const MEMBER_ROLE := Role(MemberId, {})
  const BLOCKED_ROLE := Role(BlockedId, {})
  const LEFT_ROLE := Role(LeftId, {})
  const NO_ROLE := Role(NoRoleId, {})

  /** The table `ROLES`. */
  function RoleOf(id: RoleId): Role
    requires !id.UnknownId?
  {
    match id
    case CreatorId => CREATOR_ROLE
    case CoordinatorId => COORDINATOR_ROLE
    case MemberId => MEMBER_ROLE
    case BlockedId => BLOCKED_ROLE
    case LeftId => LEFT_ROLE
    case NoRoleId => NO_ROLE
  }

  /** A role record. */
  datatype Record = Record(roleId: RoleId, fromIndex: nat, reason: Option<string>)

  datatype AssignError =
    NotAssignable | LeftOther | UnknownOwnRole | LacksPermission | CreatorOnlyBlocked | AlreadyExists

  /** What an assignment waits for: the core id of the device; that core to be ready; its own role record, or,
      without one, its own core id; the device's role record; the record to be updated or created. */
  datatype At = LookUp | Ready | OwnRecord | OwnCore | Find | Update | Create | Over(error: Option<AssignError>)

  /** An assignment by `me`: its arguments, its variables `authCoreId` and `fromIndex`, and where it is. */
  datatype Call = Call(
    me: nat,
    device: nat,
    roleId: RoleId,
    reason: Option<string>,
    authCoreId: Option<nat>,
    fromIndex: nat,
    at: At)

  /** A project: the core its creator owns, the core ownership records (device to auth core), the lengths of the
      cores at hand, the role records, and the assignments, past ones too. */
  datatype Project = Project(
    creatorCore: nat, owners: map<nat, nat>, lengths: map<nat, nat>, records: map<nat, Record>, calls: map<nat, Call>)

  /** Signatures tie a core to one device. */
  ghost predicate OneOwner(p: Project)
  {
    forall d, e :: d in p.owners && e in p.owners && p.owners[d] == p.owners[e] ==> d == e
  }

  predicate Owns(p: Project, d: nat) { d in p.owners && p.owners[d] == p.creatorCore }

  /** The role that a record gives. */
  function RecordRole(r: Record): Role
  {
    if r.roleId.UnknownId? then BLOCKED_ROLE else RoleOf(r.roleId)
  }

  /** The role of a device without record, whose core ownership is known. */
  function DefaultRole(p: Project, d: nat): Role
  {
    if Owns(p, d) then CREATOR_ROLE else NO_ROLE
  }

  /** `getRole`; none when there is no role record and no core ownership record, which is an error. */
  function GetRole(p: Project, d: nat): Option<Role>
  {
    if d in p.records then Some(RecordRole(p.records[d]))
    else if d !in p.owners then None
    else Some(DefaultRole(p, d))
  }

  /** `getRoleReason`. */
  function GetRoleReason(p: Project, d: nat): Option<string>
  {
    if d in p.records then p.records[d].reason else None
  }

  // ----- Assigning a role, stretch by stretch -----

  function Failed(c: Call, error: AssignError): Call { c.(at := Over(Some(error))) }

  /** `assignRole`, up to the first `await`. */
  function NewCall(me: nat, d: nat, role: RoleId, reason: Option<string>): Call
  {
    Call(me, d, role, reason, None, 0, if role in ASSIGNABLE_TO_ANYONE then LookUp else Over(Some(NotAssignable)))
  }

  /** Once the device's core is known, as far as it can be. */
  function AfterTarget(c: Call): Call
  {
    if c.roleId != LeftId then c.(at := OwnRecord)
    else if c.device != c.me then Failed(c, LeftOther)
    else c.(at := Find)
  }

  /** Once the own role is known. */
  function AfterRole(c: Call, role: Role): Call
  {
    if c.roleId in role.roleAssignment then c.(at := Find) else Failed(c, LacksPermission)
  }

  /** The length of a core, as far as it is at hand. */
  function LengthOf(p: Project, core: Option<nat>): nat
  {
    if core.Some? && core.value in p.lengths then p.lengths[core.value] else 0
  }

  /** The assignment after its next stretch. */
  function Step(p: Project, c: Call): Call
  {
    match c.at
    case LookUp =>
      if c.device !in p.owners then AfterTarget(c)
      else
        var c' := c.(authCoreId := Some(p.owners[c.device]));
        if p.owners[c.device] in p.lengths then c'.(at := Ready) else AfterTarget(c')
    case Ready => AfterTarget(c.(fromIndex := LengthOf(p, c.authCoreId)))
    case OwnRecord => if c.me in p.records then AfterRole(c, RecordRole(p.records[c.me])) else c.(at := OwnCore)
    case OwnCore => if c.me !in p.owners then Failed(c, UnknownOwnRole) else AfterRole(c, DefaultRole(p, c.me))
    case Find =>
      if c.device in p.records then c.(at := Update)
      else if c.device != c.me && c.authCoreId == Some(p.creatorCore) && c.roleId != BlockedId then
        Failed(c, CreatorOnlyBlocked)
      else c.(at := Create)
    case Update => c.(at := Over(None))
    case Create => if c.device in p.records then Failed(c, AlreadyExists) else c.(at := Over(None))
    case Over(_) => c
  }

  /** Does the next stretch write? */
  predicate Writes(p: Project, c: Call)
  {
    c.at.Update? || (c.at.Create? && c.device !in p.records)
  }

  /** The records after it. A new record is created without the reason. */
  function Written(p: Project, c: Call): map<nat, Record>
  {
    if Writes(p, c) then p.records[c.device := Record(c.roleId, c.fromIndex, if c.at.Update? then c.reason else None)]
    else p.records
  }

  /** A device joins: its first core ownership record counts, and no core has two owners. A core grows. An
      assignment begins, under a number of its own, or goes on to its next `await`. */
  datatype Action =
    | Join(device: nat, core: nat)
    | Grow(core: nat, length: nat)
    | Begin(id: nat, me: nat, device: nat, role: RoleId, reason: Option<string>)
    | Proceed(id: nat)

  function Next(p: Project, a: Action): Project
  {
    match a
    case Join(d, core) => if d in p.owners || core in p.owners.Values then p else p.(owners := p.owners[d := core])
    case Grow(core, n) => if core in p.lengths && n < p.lengths[core] then p else p.(lengths := p.lengths[core := n])
    case Begin(id, me, d, role, reason) =>
      if id in p.calls then p else p.(calls := p.calls[id := NewCall(me, d, role, reason)])
    case Proceed(id) =>
      if id !in p.calls then p
      else p.(calls := p.calls[id := Step(p, p.calls[id])], records := Written(p, p.calls[id]))
  }

  function Run(p: Project, actions: seq<Action>): Project
    decreases |actions|
  {
    if actions == [] then p else Run(Next(p, actions[0]), actions[1..])
  }

  function Empty(creatorCore: nat): Project { Project(creatorCore, map[], map[], map[], map[]) }

  predicate CanAssign(p: Project, d: nat)
  {
    GetRole(p, d).Some? && GetRole(p, d).value.roleAssignment != {}
  }

  // ----- What every action keeps -----

  ghost predicate CreatorKnown(p: Project) { exists d :: Owns(p, d) }

  /** An index into a device's auth core, as far as it is at hand. */
  predicate Within(p: Project, d: nat, index: nat)
  {
    index > 0 ==> d in p.owners && p.owners[d] in p.lengths && index <= p.lengths[p.owners[d]]
  }

  ghost predicate RecordOk(p: Project, d: nat)
    requires d in p.records
  {
    var r := p.records[d];
    r.roleId in ASSIGNABLE_TO_ANYONE && Within(p, d, r.fromIndex) && (r.roleId != LeftId ==> CreatorKnown(p))
  }

  /** Has the assignment passed its checks? */
  predicate Allowed(c: Call) { c.at.Find? || c.at.Update? || c.at.Create? }

  ghost predicate CallOk(p: Project, c: Call)
  {
    && (c.at.Over? || c.roleId in ASSIGNABLE_TO_ANYONE) && Within(p, c.device, c.fromIndex)
    && (c.authCoreId.Some? ==> c.device in p.owners && p.owners[c.device] == c.authCoreId.value)
    && (c.at.LookUp? ==> c.authCoreId.None? && c.fromIndex == 0)
    && (c.at.Ready? ==> c.authCoreId.Some? && c.authCoreId.value in p.lengths)
    && (c.at.OwnRecord? || c.at.OwnCore? ==> c.roleId != LeftId)
    && (Allowed(c) ==> if c.roleId == LeftId then c.device == c.me else CreatorKnown(p))
    && (c.at.Update? ==> c.device in p.records)
    && (c.at.Create? && c.authCoreId == Some(p.creatorCore) ==> c.device == c.me || c.roleId == BlockedId)
  }

  /** Only assignable roles are in the records; and anything but a device having left goes back to a creator. */
  ghost predicate Inv(p: Project)
  {
    && OneOwner(p)
    && (forall d :: d in p.records ==> RecordOk(p, d))
    && (forall id :: id in p.calls ==> CallOk(p, p.calls[id]))
  }

  lemma KnownStays(p: Project, a: Action)
    requires CreatorKnown(p)
    ensures CreatorKnown(Next(p, a)) && forall d :: Owns(Next(p, a), d) <==> Owns(p, d)
  {
    var c :| Owns(p, c);
    assert p.owners[c] in p.owners.Values;
    assert Owns(Next(p, a), c);
  }

  lemma WithinStays(p: Project, a: Action, d: nat, index: nat)
    requires Within(p, d, index)
    ensures Within(Next(p, a), d, index)
  {
  }

  lemma CallStays(p: Project, a: Action, c: Call)
    requires CallOk(p, c)
    ensures CallOk(Next(p, a), c)
  {
    WithinStays(p, a, c.device, c.fromIndex);
    if CreatorKnown(p) { KnownStays(p, a); }
  }

  lemma RecordStays(p: Project, a: Action, d: nat)
    requires d in p.records && RecordOk(p, d) && d in Next(p, a).records && Next(p, a).records[d] == p.records[d]
    ensures RecordOk(Next(p, a), d)
  {
    WithinStays(p, a, d, p.records[d].fromIndex);
    if CreatorKnown(p) { KnownStays(p, a); }
  }

  lemma AssignersKnowCreator(p: Project, me: nat)
    requires Inv(p) && CanAssign(p, me)
    ensures CreatorKnown(p)
  {
    if me in p.records { assert RecordOk(p, me); } else { assert Owns(p, me); }
  }

  /** A stretch that reads. */
  lemma StepOk(p: Project, c: Call)
    requires Inv(p) && CallOk(p, c) && !Writes(p, c)
    ensures CallOk(p, Step(p, c))
  {
    if c.at.OwnRecord? && Step(p, c).at.Find? { AssignersKnowCreator(p, c.me); }
    if c.at.OwnCore? && Step(p, c).at.Find? { assert Owns(p, c.me); }
  }

  lemma CallsOk(p: Project, a: Action, id: nat)
    requires Inv(p) && id in Next(p, a).calls
    ensures CallOk(Next(p, a), Next(p, a).calls[id])
  {
    if id in p.calls {
      var c := p.calls[id];
      if a == Proceed(id) && !Writes(p, c) {
        StepOk(p, c);
        CallStays(p, a, Step(p, c));
      } else {
        CallStays(p, a, c);
      }
    }
  }

  lemma RecordsOk(p: Project, a: Action, d: nat)
    requires Inv(p) && d in Next(p, a).records
    ensures RecordOk(Next(p, a), d)
  {
    if d in p.records && Next(p, a).records[d] == p.records[d] {
      RecordStays(p, a, d);
    } else {
      CallStays(p, a, p.calls[a.id]);
    }
  }

  lemma NextInv(p: Project, a: Action)
    requires Inv(p)
    ensures Inv(Next(p, a))
  {
    var p' := Next(p, a);
    assert forall e :: e in p.owners ==> p.owners[e] in p.owners.Values;
    forall id | id in p'.calls ensures CallOk(p', p'.calls[id]) { CallsOk(p, a, id); }
    forall d | d in p'.records ensures RecordOk(p', d) { RecordsOk(p, a, d); }
  }

  lemma {:induction false} RunInv(p: Project, actions: seq<Action>)
    requires Inv(p)
    ensures Inv(Run(p, actions))
    decreases |actions|
  {
    if actions != [] {
      NextInv(p, actions[0]);
      RunInv(Next(p, actions[0]), actions[1..]);
    }
  }

  lemma {:induction false} RunAppend(p: Project, xs: seq<Action>, ys: seq<Action>)
    ensures Run(p, xs + ys) == Run(Run(p, xs), ys)
    decreases |xs|
  {
    if xs == [] {
      assert xs + ys == ys;
    } else {
      assert (xs + ys)[1..] == xs[1..] + ys;
      RunAppend(Next(p, xs[0]), xs[1..], ys);
    }
  }

  lemma RunOne(p: Project, a: Action, rest: seq<Action>)
    ensures Run(p, [a] + rest) == Run(Next(p, a), rest)
  {
    assert ([a] + rest)[1..] == rest;
  }

  // ----- An assignment in one go -----

  datatype Assigned = Refused(error: AssignError) | Done(records: map<nat, Record>)

  /** The index an assignment notes. */
  function FromIndex(p: Project, d: nat): nat
  {
    if d in p.owners then LengthOf(p, Some(p.owners[d])) else 0
  }

  /** What an assignment comes to with nothing in between. */
  function Assign(p: Project, me: nat, d: nat, role: RoleId, reason: Option<string>): Assigned
  {
    if role !in ASSIGNABLE_TO_ANYONE then Refused(NotAssignable)
    else if role == LeftId && d != me then Refused(LeftOther)
    else if role != LeftId && GetRole(p, me).None? then Refused(UnknownOwnRole)
    else if role != LeftId && role !in GetRole(p, me).value.roleAssignment then Refused(LacksPermission)
    else if d in p.records then Done(p.records[d := Record(role, FromIndex(p, d), reason)])
    else if d != me && Owns(p, d) && role != BlockedId then Refused(CreatorOnlyBlocked)
    else Done(p.records[d := Record(role, FromIndex(p, d), None)])
  }

  /** How many stretches an assignment still has, at most. */
  function Ahead(c: Call): nat
  {
    match c.at
    case LookUp => 6
    case Ready => 5
    case OwnRecord => 4
    case OwnCore => 3
    case Find => 2
    case Update => 1
    case Create => 1
    case Over(_) => 0
  }

  /** The assignment when it has read all it reads. */
  function ReadOn(p: Project, c: Call): Call
    decreases Ahead(c)
  {
    if Ahead(c) <= 1 then c else ReadOn(p, Step(p, c))
  }

  /** The assignment with what is known of the device's core. */
  function Target(p: Project, c: Call): Call
  {
    var core := if c.device in p.owners then Some(p.owners[c.device]) else None;
    c.(authCoreId := core, fromIndex := FromIndex(p, c.device))
  }

  lemma TargetRead(p: Project, c: Call)
    requires c.at.LookUp? && c.authCoreId.None? && c.fromIndex == 0
    ensures ReadOn(p, c) == ReadOn(p, AfterTarget(Target(p, c)))
  {
    var c1 := Step(p, c);
    assert c1.at.Ready? ==> ReadOn(p, c1) == ReadOn(p, Step(p, c1));
  }

  lemma RoleRead(p: Project, c: Call)
    requires c.at.OwnRecord?
    ensures var role := GetRole(p, c.me);
      ReadOn(p, c) == ReadOn(p, if role.None? then Failed(c, UnknownOwnRole) else AfterRole(c, role.value))
  {
    var c1 := Step(p, c);
    assert c1.at.OwnCore? ==> ReadOn(p, c1) == ReadOn(p, Step(p, c1));
  }

  lemma RecordRead(p: Project, c: Call)
    requires c.at.Find? || c.at.Over?
    ensures ReadOn(p, c) == Step(p, c)
  {
  }

  /** What it has read then. */
  lemma ReadAll(p: Project, me: nat, d: nat, role: RoleId, reason: Option<string>)
    ensures var c := ReadOn(p, NewCall(me, d, role, reason));
      match Assign(p, me, d, role, reason)
      case Refused(e) => c.at == Over(Some(e))
      case Done(records) => Writes(p, c) && Written(p, c) == records
  {
    var c := NewCall(me, d, role, reason);
    if c.at.LookUp? {
      TargetRead(p, c);
      var c1 := AfterTarget(Target(p, c));
      if c1.at.OwnRecord? {
        RoleRead(p, c1);
        var own := GetRole(p, me);
        RecordRead(p, if own.None? then Failed(c1, UnknownOwnRole) else AfterRole(c1, own.value));
      } else {
        RecordRead(p, c1);
      }
    }
  }

  /** Only the steps of one assignment. */
  predicate OnlyFor(actions: seq<Action>, id: nat)
  {
    forall i :: 0 <= i < |actions| ==> actions[i] == Proceed(id)
  }

  lemma {:induction false} ReadOnRun(p: Project, id: nat) returns (actions: seq<Action>)
    requires id in p.calls
    ensures OnlyFor(actions, id)
    ensures Run(p, actions) == p.(calls := p.calls[id := ReadOn(p, p.calls[id])])
    decreases Ahead(p.calls[id])
  {
    var c := p.calls[id];
    if Ahead(c) <= 1 {
      actions := [];
      assert p.calls[id := c] == p.calls;
    } else {
      var p1 := Next(p, Proceed(id));
      SameReading(p, p1, Step(p, c));
      var rest := ReadOnRun(p1, id);
      actions := [Proceed(id)] + rest;
      RunOne(p, Proceed(id), rest);
      assert p1.calls[id := ReadOn(p, c)] == p.calls[id := ReadOn(p, c)];
    }
  }

  /** Reading does not depend on the other assignments under way. */
  lemma {:induction false} SameReading(p: Project, p': Project, c: Call)
    requires p' == p.(calls := p'.calls)
    ensures ReadOn(p, c) == ReadOn(p', c)
    decreases Ahead(c)
  {
    if Ahead(c) > 1 { SameReading(p, p', Step(p, c)); }
  }

  /** All stretches in a row, with nothing in between. */
  lemma OneGo(p: Project, id: nat, me: nat, d: nat, role: RoleId, reason: Option<string>)
    returns (actions: seq<Action>)
    requires id !in p.calls
    ensures forall a :: a in actions ==> a == Begin(id, me, d, role, reason) || a == Proceed(id)
    ensures var p', whole := Run(p, actions), Assign(p, me, d, role, reason);
      && id in p'.calls && p' == p.(calls := p.calls[id := p'.calls[id]], records := p'.records)
      && p'.records == (if whole.Done? then whole.records else p.records)
      && p'.calls[id].at == Over(if whole.Done? then None else Some(whole.error))
  {
    var p1 := Next(p, Begin(id, me, d, role, reason));
    ReadAll(p, me, d, role, reason);
    SameReading(p, p1, p1.calls[id]);
    var reading := ReadOnRun(p1, id);
    var p2 := Run(p1, reading);
    actions := [Begin(id, me, d, role, reason)] + (reading + [Proceed(id)]);
    RunOne(p, Begin(id, me, d, role, reason), reading + [Proceed(id)]);
    RunAppend(p1, reading, [Proceed(id)]);
    RunLast(p2, Proceed(id));
    LastStretch(p, p2, id);
  }

  lemma RunLast(p: Project, a: Action)
    ensures Run(p, [a]) == Next(p, a)
  {
    assert [a] + [] == [a];
    RunOne(p, a, []);
  }

  /** The stretch that writes, if the assignment is not over. */
  lemma LastStretch(p: Project, p': Project, id: nat)
    requires id !in p.calls && id in p'.calls && p' == p.(calls := p.calls[id := p'.calls[id]])
    requires p'.calls[id].at.Over? || Writes(p, p'.calls[id])
    ensures var p2, c := Next(p', Proceed(id)), p'.calls[id];
      && id in p2.calls && p2 == p.(calls := p.calls[id := p2.calls[id]], records := p2.records)
      && p2.records == Written(p, c) && p2.calls[id].at == if c.at.Over? then c.at else Over(None)
  {
  }

  // ----- The theorems, over all runs -----

  /** No record ever gives the creator role or no role, or an unknown one; and its index lies within its
      device's auth core. */
  lemma RecordsAssignable(core: nat, actions: seq<Action>, d: nat)
    ensures var p := Run(Empty(core), actions);
      d in p.records ==>
        p.records[d].roleId in {CoordinatorId, MemberId, BlockedId, LeftId} && Within(p, d, p.records[d].fromIndex)
  {
    RunInv(Empty(core), actions);
    var p := Run(Empty(core), actions);
    if d in p.records { assert RecordOk(p, d); }
  }

  /** What others can do to the creator, in any project: block them; and anything else exactly once the creator
      has a record, whoever made it. */
  lemma OthersOverCreator(p: Project, me: nat, c: nat, role: RoleId, reason: Option<string>)
    requires me != c && Owns(p, c)
    ensures Assign(p, me, c, role, reason).Done? <==>
      role in ASSIGNABLE_TO_OTHERS && CanAssign(p, me) && (role == BlockedId || c in p.records)
  {
  }

  /** The reason given for a role can be read back afterwards, if and only if there is none or the device had
      a record before. */
  lemma ReasonKept(p: Project, me: nat, d: nat, role: RoleId, reason: Option<string>)
    requires Assign(p, me, d, role, reason).Done?
    ensures GetRoleReason(p.(records := Assign(p, me, d, role, reason).records), d) == reason <==>
      reason.None? || d in p.records
  {
  }

  /** Which role a device has: the one its record names, where that is a known one, and otherwise the blocked one;
      without record, the creator's for the owner of the creator's core, no role for any other device of which
      the core is known, and none for the rest. */
  lemma RoleNamed(p: Project, d: nat)
    ensures d in p.records ==>
      && GetRole(p, d).Some?
      && GetRole(p, d).value.roleId == if p.records[d].roleId.UnknownId? then BlockedId else p.records[d].roleId
    ensures d !in p.records && d in p.owners ==>
      && GetRole(p, d).Some?
      && GetRole(p, d).value.roleId == if p.owners[d] == p.creatorCore then CreatorId else NoRoleId
    ensures d !in p.records && d !in p.owners ==> GetRole(p, d).None?
    ensures GetRole(p, d).Some? ==>
      var role := GetRole(p, d).value;
      role.roleAssignment ==
        if role.roleId == CreatorId || role.roleId == CoordinatorId then {CoordinatorId, MemberId, BlockedId} else {}
  {
  }

  /** And which one is shown. */
  lemma RoleShown(p: Project, d: nat)
    ensures ShownRole(p, d).roleId ==
      if d in p.records && p.records[d].roleId in {CoordinatorId, MemberId, BlockedId, LeftId, NoRoleId}
        then p.records[d].roleId
      else if d in p.owners && p.owners[d] == p.creatorCore then CreatorId else NoRoleId
  {
  }

  // ----- What an assignment read, and what is so when it writes -----

  /** The same assignment, further on. */
  predicate Further(c: Call, c': Call)
  {
    && c'.me == c.me && c'.device == c.device && c'.roleId == c.roleId && c'.reason == c.reason
    && Ahead(c') <= Ahead(c) && (c.at != LookUp ==> c'.authCoreId == c.authCoreId)
    && (Ahead(c) < 5 ==> c'.fromIndex == c.fromIndex)
  }

  lemma StepFurther(p: Project, c: Call)
    ensures Further(c, Step(p, c))
  {
  }

  lemma OwnersStay(p: Project, a: Action)
    ensures Next(p, a).creatorCore == p.creatorCore
    ensures forall d :: d in p.owners ==> d in Next(p, a).owners && Next(p, a).owners[d] == p.owners[d]
  {
  }

  lemma NextFurther(p: Project, a: Action, id: nat)
    requires id in p.calls
    ensures id in Next(p, a).calls && Further(p.calls[id], Next(p, a).calls[id])
    ensures Next(p, a).creatorCore == p.creatorCore
    ensures forall d :: d in p.owners ==> d in Next(p, a).owners && Next(p, a).owners[d] == p.owners[d]
  {
    StepFurther(p, p.calls[id]);
    OwnersStay(p, a);
  }

  lemma {:induction false} RunFurther(p: Project, actions: seq<Action>, id: nat)
    requires id in p.calls
    ensures var p' := Run(p, actions);
      && id in p'.calls && Further(p.calls[id], p'.calls[id]) && p'.creatorCore == p.creatorCore
      && (forall d :: d in p.owners ==> d in p'.owners && p'.owners[d] == p.owners[d])
    decreases |actions|
  {
    if actions != [] {
      NextFurther(p, actions[0], id);
      RunFurther(Next(p, actions[0]), actions[1..], id);
    }
  }

  /** Over all runs: when the assignment `id` looks for the record of a creator, other than its own, it is
      turned down as meant for the creator if and only if it is not to block them, they have no record by
      then, and they were known as the creator when the assignment looked the device up. */
  lemma LateOverCreator(core: nat, before: seq<Action>, id: nat, between: seq<Action>)
    ensures var p0 := Run(Empty(core), before); var p := Run(p0, [Proceed(id)] + between);
      id in p0.calls && p0.calls[id].at.LookUp? && id in p.calls && p.calls[id].at.Find? ==>
        var c := p.calls[id]; c.me != c.device && Owns(p, c.device) ==>
          (Step(p, c).at == Over(Some(CreatorOnlyBlocked)) <==>
            c.roleId != BlockedId && c.device !in p.records && Owns(p0, c.device))
          && (Step(p, c).at.Over? <==> Step(p, c).at == Over(Some(CreatorOnlyBlocked)))
  {
    var p0 := Run(Empty(core), before);
    RunInv(Empty(core), before);
    RunOne(p0, Proceed(id), between);
    if id in p0.calls && p0.calls[id].at.LookUp? {
      assert CallOk(p0, p0.calls[id]);
      NextFurther(p0, Proceed(id), id);
      RunFurther(Next(p0, Proceed(id)), between, id);
    }
  }

  /** So while a creator has no record, and unless they were not known yet, others can only set them blocked:
      whatever step makes their first record. */
  lemma FirstRecordOfCreator(core: nat, actions: seq<Action>, a: Action, d: nat)
    ensures var p := Run(Empty(core), actions);
      Owns(p, d) && d !in p.records && d in Next(p, a).records ==>
        && a.Proceed? && a.id in p.calls && p.calls[a.id].device == d
        && var c := p.calls[a.id];
           c.me == d || c.roleId == BlockedId || c.authCoreId.None?
  {
    RunInv(Empty(core), actions);
    var p := Run(Empty(core), actions);
    if a.Proceed? && a.id in p.calls { assert CallOk(p, p.calls[a.id]); }
  }

  /** The length of the device's core that an assignment notes: the one it had when the core was ready. */
  lemma LateIndex(core: nat, before: seq<Action>, id: nat, between: seq<Action>)
    ensures var p0 := Run(Empty(core), before); var p := Run(p0, [Proceed(id)] + between);
      id in p0.calls && p0.calls[id].at.Ready? && id in p.calls ==>
        && p.calls[id].device in p0.owners && p0.owners[p.calls[id].device] in p0.lengths
        && p.calls[id].fromIndex == p0.lengths[p0.owners[p.calls[id].device]]
  {
    var p0 := Run(Empty(core), before);
    RunInv(Empty(core), before);
    RunOne(p0, Proceed(id), between);
    if id in p0.calls && p0.calls[id].at.Ready? {
      assert CallOk(p0, p0.calls[id]);
      NextFurther(p0, Proceed(id), id);
      RunFurther(Next(p0, Proceed(id)), between, id);
    }
  }

  /** Without a core at hand when the device was looked up, it notes 0. */
  lemma NoIndex(core: nat, before: seq<Action>, id: nat, between: seq<Action>)
    ensures var p0 := Run(Empty(core), before); var p := Run(p0, [Proceed(id)] + between);
      id in p0.calls && p0.calls[id].at.LookUp? && id in p.calls
        && (p0.calls[id].device !in p0.owners || p0.owners[p0.calls[id].device] !in p0.lengths)
      ==> p.calls[id].fromIndex == 0
  {
    var p0 := Run(Empty(core), before);
    RunInv(Empty(core), before);
    RunOne(p0, Proceed(id), between);
    if id in p0.calls && p0.calls[id].at.LookUp? {
      assert CallOk(p0, p0.calls[id]);
      NextFurther(p0, Proceed(id), id);
      RunFurther(Next(p0, Proceed(id)), between, id);
    }
  }

  /** What a step writes: role, index and device of an assignment that was looking at the record, and its reason if
      there was one; all other records stay. */
  lemma WhatIsWritten(p: Project, a: Action, d: nat)
    requires d in Next(p, a).records && (d !in p.records || Next(p, a).records[d] != p.records[d])
    ensures a.Proceed? && a.id in p.calls && p.calls[a.id].device == d
    ensures var c := p.calls[a.id];
      && (c.at == Update || (c.at == Create && d !in p.records))
      && Next(p, a).records[d] == Record(c.roleId, c.fromIndex, if c.at == Update then c.reason else None)
      && Next(p, a).calls[a.id].at == Over(None)
  {
  }

  /** Over every run: only a device itself has it left. */
  lemma LeftByItself(core: nat, actions: seq<Action>, a: Action, d: nat)
    ensures var p := Run(Empty(core), actions);
      d in Next(p, a).records && Next(p, a).records[d].roleId == LeftId
        && (d !in p.records || Next(p, a).records[d] != p.records[d])
      ==> a.Proceed? && a.id in p.calls && p.calls[a.id].me == d
  {
    RunInv(Empty(core), actions);
    var p := Run(Empty(core), actions);
    if a.Proceed? && a.id in p.calls { assert CallOk(p, p.calls[a.id]); }
  }

  /** May a device give this role to someone? */
  predicate MayAssign(p: Project, me: nat, role: RoleId)
  {
    GetRole(p, me).Some? && role in GetRole(p, me).value.roleAssignment
  }

  /** The role that a step writes for `d`. */
  function WrittenTo(p: Project, a: Action, d: nat): Option<RoleId>
  {
    if a.Proceed? && a.id in p.calls && Writes(p, p.calls[a.id]) && p.calls[a.id].device == d
      then Some(p.calls[a.id].roleId) else None
  }

  /** The role last written for `d`. */
  function LastTo(p: Project, actions: seq<Action>, d: nat): Option<RoleId>
    decreases |actions|
  {
    if actions == [] then None else
      var later := LastTo(Next(p, actions[0]), actions[1..], d);
      if later.Some? then later else WrittenTo(p, actions[0], d)
  }

  lemma {:induction false} RecordIsLast(p: Project, actions: seq<Action>, d: nat)
    ensures var p', last := Run(p, actions), LastTo(p, actions, d);
      if last.Some? then d in p'.records && p'.records[d].roleId == last.value
      else (d in p'.records <==> d in p.records) && (d in p.records ==> p'.records[d] == p.records[d])
    decreases |actions|
  {
    if actions != [] { RecordIsLast(Next(p, actions[0]), actions[1..], d); }
  }

  /** What an assignment that is not a device's leaving has found out about its device's own role, since `p0`,
      when it began to read it. */
  predicate RoleKnown(p0: Project, p: Project, id: nat)
  {
    && id in p.calls && p.calls[id].roleId in ASSIGNABLE_TO_OTHERS && Ahead(p.calls[id]) <= 3
    && (p.calls[id].at.OwnCore? ==> p.calls[id].me !in p0.records)
    && (Allowed(p.calls[id]) ==> if p.calls[id].me in p0.records then p0.records[p.calls[id].me].roleId == CoordinatorId
                                 else Owns(p, p.calls[id].me))
  }

  lemma FirstKnown(p0: Project, id: nat)
    requires Inv(p0) && id in p0.calls && p0.calls[id].at.OwnRecord?
    ensures RoleKnown(p0, Next(p0, Proceed(id)), id)
  {
    assert CallOk(p0, p0.calls[id]);
    var me := p0.calls[id].me;
    if me in p0.records { assert RecordOk(p0, me); }
  }

  lemma {:induction false} StaysKnown(p0: Project, p: Project, actions: seq<Action>, id: nat)
    requires RoleKnown(p0, p, id)
    ensures RoleKnown(p0, Run(p, actions), id)
    decreases |actions|
  {
    if actions != [] {
      NextFurther(p, actions[0], id);
      StaysKnown(p0, Next(p, actions[0]), actions[1..], id);
    }
  }

  /** Over all runs: an assignment that passed its checks is still one that its device may make, if and only
      if since it began to read its own role no role was written for the device, or last the coordinator's. */
  lemma StillAllowed(core: nat, before: seq<Action>, id: nat, between: seq<Action>)
    ensures var p0 := Run(Empty(core), before); var p := Run(p0, [Proceed(id)] + between);
      id in p0.calls && p0.calls[id].at.OwnRecord? && id in p.calls && Allowed(p.calls[id]) ==>
        var c := p.calls[id];
        (MayAssign(p, c.me, c.roleId) <==> LastTo(p0, [Proceed(id)] + between, c.me) in {None, Some(CoordinatorId)})
  {
    var p0, actions := Run(Empty(core), before), [Proceed(id)] + between;
    var p := Run(p0, actions);
    RunOne(p0, Proceed(id), between);
    RunInv(Empty(core), before);
    RunInv(p0, actions);
    if id in p0.calls && p0.calls[id].at.OwnRecord? {
      FirstKnown(p0, id);
      StaysKnown(p0, Next(p0, Proceed(id)), between, id);
      RecordIsLast(p0, actions, p.calls[id].me);
      if Allowed(p.calls[id]) { AllowedExact(p0, p, id, LastTo(p0, actions, p.calls[id].me)); }
    }
  }

  lemma AllowedExact(p0: Project, p: Project, id: nat, last: Option<RoleId>)
    requires Inv(p) && RoleKnown(p0, p, id) && Allowed(p.calls[id])
    requires var me := p.calls[id].me;
      if last.Some? then me in p.records && p.records[me].roleId == last.value
      else (me in p.records <==> me in p0.records) && (me in p0.records ==> p.records[me] == p0.records[me])
    ensures MayAssign(p, p.calls[id].me, p.calls[id].roleId) <==> last in {None, Some(CoordinatorId)}
  {
    if p.calls[id].me in p.records { assert RecordOk(p, p.calls[id].me); }
  }

  // ----- Some runs -----

  /** The creator is device 0, with core 7; device 1 is a coordinator. */
  predicate Coordinated(p: Project)
  {
    && p.creatorCore == 7 && p.owners == map[0 := 7, 1 := 8] && p.lengths == map[]
    && p.records == map[1 := Record(CoordinatorId, 0, None)]
  }

  /** Both join, and the creator makes device 1 a coordinator. */
  lemma CoordinatedRun(p: Project) returns (actions: seq<Action>)
    requires p.creatorCore == 7 && p.owners == p.lengths == map[] && p.records == map[] && 0 !in p.calls
    ensures Coordinated(Run(p, actions)) && Run(p, actions).calls.Keys == p.calls.Keys + {0}
    ensures forall id :: id in p.calls ==> Run(p, actions).calls[id] == p.calls[id]
    ensures forall a :: a in actions && a.Begin? ==> a.device == 1
  {
    var p1 := Next(p, Join(0, 7));
    var p2 := Next(p1, Join(1, 8));
    var rest := OneGo(p2, 0, 0, 1, CoordinatorId, None);
    actions := [Join(0, 7)] + ([Join(1, 8)] + rest);
    RunOne(p, Join(0, 7), [Join(1, 8)] + rest);
    RunOne(p1, Join(1, 8), rest);
  }

  /** A creator can be made a member by someone else: block them first. */
  lemma CreatorMadeMember() returns (actions: seq<Action>)
    ensures var p := Run(Empty(7), actions); Owns(p, 0) && GetRole(p, 0) == Some(MEMBER_ROLE)
    ensures forall a :: a in actions && a.Begin? && a.device == 0 ==> a.me == 1
  {
    var first := CoordinatedRun(Empty(7));
    var p1 := Run(Empty(7), first);
    var second := OneGo(p1, 1, 1, 0, BlockedId, None);
    var p2 := Run(p1, second);
    var third := OneGo(p2, 2, 1, 0, MemberId, None);
    RunAppend(p1, second, third);
    RunAppend(Empty(7), first, second + third);
    actions := first + (second + third);
  }

  /** Or look them up before their core ownership arrives: no one ever blocks the creator here. */
  lemma UnknownMadeMember() returns (actions: seq<Action>)
    ensures var p := Run(Empty(7), actions); Owns(p, 0) && GetRole(p, 0) == Some(MEMBER_ROLE)
    ensures forall a :: a in actions && a.Begin? && a.device == 0 ==> a.me == 1 && a.role == MemberId
  {
    var begin, go := Begin(5, 1, 0, MemberId, None), Proceed(5);
    var looking := [begin] + [go];
    LookedEarly(begin, go);
    var p2 := Run(Empty(7), looking);
    var first := CoordinatedRun(p2);
    var p3 := Run(p2, first);
    MemberWritten(p3, 5);
    RunAppend(p2, first, Thrice(go));
    RunAppend(Empty(7), looking, first + Thrice(go));
    actions := looking + (first + Thrice(go));
  }

  /** Device 1 has looked device 0 up and found nothing. */
  lemma LookedEarly(begin: Action, go: Action)
    requires begin == Begin(5, 1, 0, MemberId, None) && go == Proceed(5)
    ensures Run(Empty(7), [begin] + [go]) ==
      Project(7, map[], map[], map[], map[5 := Call(1, 0, MemberId, None, None, 0, OwnRecord)])
  {
    RunOne(Empty(7), begin, [go]);
    RunLast(Next(Empty(7), begin), go);
  }

  function Thrice(a: Action): seq<Action> { [a] + ([a] + [a]) }

  lemma RunThrice(p: Project, a: Action)
    ensures Run(p, Thrice(a)) == Next(Next(Next(p, a), a), a)
  {
    RunOne(p, a, [a] + [a]);
    RunOne(Next(p, a), a, [a]);
    RunLast(Next(Next(p, a), a), a);
  }

  /** Device 1, now a coordinator, reads its role, finds no record of device 0, and creates one. */
  lemma MemberWritten(p: Project, id: nat)
    requires Coordinated(p) && id in p.calls && p.calls[id] == Call(1, 0, MemberId, None, None, 0, OwnRecord)
    ensures var p' := Run(p, Thrice(Proceed(id)));
      p'.owners == p.owners && p'.creatorCore == 7 && 0 in p'.records && p'.records[0].roleId == MemberId
  {
    RunThrice(p, Proceed(id));
    var p1 := Next(p, Proceed(id));
    var p2 := Next(p1, Proceed(id));
    assert p1.calls[id] == p.calls[id].(at := Find) && p1.records == p.records;
    assert p2.calls[id] == p.calls[id].(at := Create) && p2.records == p.records;
  }

  // ----- When no one can assign roles any more -----

  /** Has the assignment passed its checks, or is it sure to, and will it write something other than that its
      device left? */
  predicate Live(p: Project, c: Call)
  {
    && c.roleId != LeftId
    && match c.at
       case OwnCore => Owns(p, c.me)
       case Find => true
       case Update => true
       case Create => c.device !in p.records
       case _ => false
  }

  /** The creator is known, no device's role can assign anything, and no assignment that has read its role
      before is under way. */
  ghost predicate Frozen(p: Project)
  {
    CreatorKnown(p) && (forall d :: !CanAssign(p, d)) && forall id :: id in p.calls ==> !Live(p, p.calls[id])
  }

  /** The records differ at most by some devices having left. */
  ghost predicate OnlyLeft(before: map<nat, Record>, after: map<nat, Record>, gone: set<nat>)
  {
    && after.Keys == before.Keys + gone
    && forall d :: d in after ==> if d in gone then after[d].roleId == LeftId else after[d] == before[d]
  }

  /** The device whose record a step writes. */
  function Completed(p: Project, a: Action): set<nat>
  {
    if a.Proceed? && a.id in p.calls && Writes(p, p.calls[a.id]) then {p.calls[a.id].device} else {}
  }

  function AllCompleted(p: Project, actions: seq<Action>): set<nat>
    decreases |actions|
  {
    if actions == [] then {} else Completed(p, actions[0]) + AllCompleted(Next(p, actions[0]), actions[1..])
  }

  lemma FrozenCalls(p: Project, a: Action, id: nat)
    requires Inv(p) && Frozen(p) && id in Next(p, a).calls
    ensures !Live(Next(p, a), Next(p, a).calls[id])
  {
    KnownStays(p, a);
    if id in p.calls {
      assert !CanAssign(p, p.calls[id].me) && !Live(p, p.calls[id]) && CallOk(p, p.calls[id]);
      StillNotLive(p, p.calls[id]);
    }
  }

  lemma StillNotLive(p: Project, c: Call)
    requires !Live(p, c) && !CanAssign(p, c.me) && CallOk(p, c)
    ensures !Live(p, Step(p, c))
  {
  }

  lemma FrozenNext(p: Project, a: Action)
    requires Inv(p) && Frozen(p)
    ensures Frozen(Next(p, a)) && OnlyLeft(p.records, Next(p, a).records, Completed(p, a))
  {
    KnownStays(p, a);
    var p' := Next(p, a);
    if a.Proceed? && a.id in p.calls { assert CallOk(p, p.calls[a.id]) && !Live(p, p.calls[a.id]); }
    forall e ensures !CanAssign(p', e) {
      assert !CanAssign(p, e) && (Owns(p', e) <==> Owns(p, e));
    }
    forall id | id in p'.calls ensures !Live(p', p'.calls[id]) { FrozenCalls(p, a, id); }
  }

  /** From then on nothing happens to the records any more, except that devices leave. */
  lemma {:induction false} FrozenRun(p: Project, actions: seq<Action>)
    requires Inv(p) && Frozen(p)
    ensures Frozen(Run(p, actions)) && OnlyLeft(p.records, Run(p, actions).records, AllCompleted(p, actions))
    decreases |actions|
  {
    if actions != [] {
      FrozenNext(p, actions[0]);
      NextInv(p, actions[0]);
      FrozenRun(Next(p, actions[0]), actions[1..]);
    }
  }

  /** The same, of any project that got there on its own. */
  lemma FrozenForEver(core: nat, before: seq<Action>, after: seq<Action>)
    ensures var p := Run(Empty(core), before);
      Frozen(p) ==> OnlyLeft(p.records, Run(p, after).records, AllCompleted(p, after))
  {
    RunInv(Empty(core), before);
    if Frozen(Run(Empty(core), before)) { FrozenRun(Run(Empty(core), before), after); }
  }

  // ----- And otherwise they can change -----

  /** Whatever happens, the records differ at most by devices having left. */
  ghost predicate OnlyLeaving(p: Project)
  {
    forall after: seq<Action> :: OnlyLeft(p.records, Run(p, after).records, AllCompleted(p, after))
  }

  lemma {:induction false} CompletedAppend(p: Project, xs: seq<Action>, ys: seq<Action>)
    ensures AllCompleted(p, xs + ys) == AllCompleted(p, xs) + AllCompleted(Run(p, xs), ys)
    decreases |xs|
  {
    if xs == [] {
      assert xs + ys == ys;
    } else {
      assert (xs + ys)[1..] == xs[1..] + ys;
      CompletedAppend(Next(p, xs[0]), xs[1..], ys);
    }
  }

  /** A step that writes nothing leaves it at that. */
  lemma LeavingBefore(p: Project, a: Action)
    requires OnlyLeaving(p) && Completed(p, a) == {}
    ensures OnlyLeaving(Next(p, a))
  {
    forall after: seq<Action>
      ensures OnlyLeft(Next(p, a).records, Run(Next(p, a), after).records, AllCompleted(Next(p, a), after))
    {
      RunOne(p, a, after);
      assert ([a] + after)[1..] == after;
      assert OnlyLeft(p.records, Run(p, [a] + after).records, AllCompleted(p, [a] + after));
    }
  }

  /** Someone who can assign makes a new device a coordinator. */
  lemma AssignerThaws(p: Project, me: nat)
    requires CanAssign(p, me)
    ensures !OnlyLeaving(p)
  {
    var id := Above(p.calls.Keys);
    var d := Above(p.records.Keys + p.owners.Keys);
    assert id !in p.calls && d !in p.records && d !in p.owners;
    var after := OneGo(p, id, me, d, CoordinatorId, None);
    assert d in Run(p, after).records && Run(p, after).records[d].roleId == CoordinatorId;
    assert !OnlyLeft(p.records, Run(p, after).records, AllCompleted(p, after));
  }

  /** An unknown creator arrives, and can assign. */
  lemma ArrivalThaws(p: Project)
    requires !CreatorKnown(p)
    ensures !OnlyLeaving(p)
  {
    var d := Above(p.records.Keys + p.owners.Keys);
    assert d !in p.records && d !in p.owners;
    assert p.creatorCore !in p.owners.Values by {
      if e :| e in p.owners && p.owners[e] == p.creatorCore { assert Owns(p, e); }
    }
    AssignerThaws(Next(p, Join(d, p.creatorCore)), d);
    if OnlyLeaving(p) { LeavingBefore(p, Join(d, p.creatorCore)); }
  }

  /** An assignment that is live writes. */
  lemma LiveThaws(p: Project, id: nat)
    requires Inv(p) && (forall d :: !CanAssign(p, d)) && id in p.calls && Live(p, p.calls[id])
    ensures !OnlyLeaving(p)
    decreases Ahead(p.calls[id])
  {
    var c, p' := p.calls[id], Next(p, Proceed(id));
    assert CallOk(p, c) && !CanAssign(p, c.device);
    if Writes(p, c) {
      RunLast(p, Proceed(id));
      assert AllCompleted(p, [Proceed(id)]) == {c.device};
      assert !OnlyLeft(p.records, Run(p, [Proceed(id)]).records, AllCompleted(p, [Proceed(id)]));
    } else {
      NextInv(p, Proceed(id));
      forall d ensures !CanAssign(p', d) { assert !CanAssign(p, d); }
      LiveThaws(p', id);
      if OnlyLeaving(p) { LeavingBefore(p, Proceed(id)); }
    }
  }

  /** From when on do the records change by devices leaving alone? Exactly from when the project is frozen. */
  lemma FrozenExact(core: nat, before: seq<Action>)
    ensures OnlyLeaving(Run(Empty(core), before)) <==> Frozen(Run(Empty(core), before))
  {
    RunInv(Empty(core), before);
    var p := Run(Empty(core), before);
    if Frozen(p) {
      forall after: seq<Action> ensures OnlyLeft(p.records, Run(p, after).records, AllCompleted(p, after)) {
        FrozenRun(p, after);
      }
    } else if !CreatorKnown(p) {
      ArrivalThaws(p);
    } else if me :| CanAssign(p, me) {
      AssignerThaws(p, me);
    } else {
      var id :| id in p.calls && Live(p, p.calls[id]);
      LiveThaws(p, id);
    }
  }

  /** In a new project no one can assign anything, until the creator's core ownership record arrives. */
  lemma UnknownCreatorThaws(core: nat)
    ensures forall d :: !CanAssign(Empty(core), d)
    ensures CanAssign(Run(Empty(core), [Join(0, core)]), 0)
  {
    RunLast(Empty(core), Join(0, core));
  }

  /** Device 1 checks its role, the creator blocks it and itself, so that no one can assign anything, and then
      device 1 makes device 2 a coordinator. */
  lemma LateWriteThaws() returns (before: seq<Action>)
    ensures var p := Run(Empty(7), before);
      && CreatorKnown(p) && (forall d :: !CanAssign(p, d))
      && CanAssign(Run(p, [Proceed(1)] + [Proceed(1)]), 2)
  {
    var first := CoordinatedRun(Empty(7));
    var p0 := Run(Empty(7), first);
    var checking := RoleChecked(p0, 1);
    var p1 := Run(p0, checking);
    var blocking := BothBlocked(p1);
    var p := Run(p1, blocking);
    RunAppend(p0, checking, blocking);
    RunAppend(Empty(7), first, checking + blocking);
    before := first + (checking + blocking);
    assert Owns(p, 0);
    CoordinatorWritten(p, 1);
  }

  /** Device 1 is going to make device 2 a coordinator, and has read its own role. */
  lemma RoleChecked(p: Project, id: nat) returns (actions: seq<Action>)
    requires Coordinated(p) && id !in p.calls
    ensures Run(p, actions) == p.(calls := p.calls[id := Call(1, 2, CoordinatorId, None, None, 0, Find)])
  {
    var begin, go := Begin(id, 1, 2, CoordinatorId, None), Proceed(id);
    actions := [begin] + ([go] + [go]);
    RunOne(p, begin, [go] + [go]);
    var p1 := Next(p, begin);
    RunOne(p1, go, [go]);
    var p2 := Next(p1, go);
    assert p2 == p.(calls := p.calls[id := Call(1, 2, CoordinatorId, None, None, 0, OwnRecord)]);
    RunLast(p2, go);
  }

  lemma CoordinatorWritten(p: Project, id: nat)
    requires id in p.calls && p.calls[id] == Call(1, 2, CoordinatorId, None, None, 0, Find) && 2 !in p.records
    ensures CanAssign(Run(p, [Proceed(id)] + [Proceed(id)]), 2)
  {
    RunOne(p, Proceed(id), [Proceed(id)]);
    RunLast(Next(p, Proceed(id)), Proceed(id));
  }

  /** The creator blocks the coordinator and itself, whatever is under way. */
  lemma BothBlocked(p: Project) returns (actions: seq<Action>)
    requires Coordinated(p) && 2 !in p.calls && 3 !in p.calls
    ensures var p' := Run(p, actions);
      && p'.owners == p.owners && p'.creatorCore == 7 && (forall d :: !CanAssign(p', d))
      && p'.records.Keys == {0, 1} && forall id :: id in p.calls ==> id in p'.calls && p'.calls[id] == p.calls[id]
  {
    var first := OneGo(p, 2, 0, 1, BlockedId, None);
    var p1 := Run(p, first);
    var second := OneGo(p1, 3, 0, 0, BlockedId, None);
    RunAppend(p, first, second);
    actions := first + second;
  }

  // ----- All roles at once -----

  /** A record that `getAll` takes over. */
  predicate Listed(p: Project, d: nat)
  {
    d in p.records && !p.records[d].roleId.UnknownId? && p.records[d].roleId != CreatorId
  }

  /** The role `getAll` shows for a device. */
  function ShownRole(p: Project, d: nat): Role
  {
    if Listed(p, d) then RoleOf(p.records[d].roleId) else DefaultRole(p, d)
  }

  /** `getAll` and `getRole` agree on a device that is shown, if and only if its record, where it has one, is
      of a known role and not the creator's (unless it is the creator), and where it has none, its core
      ownership is known. */
  lemma ShownAgrees(p: Project, me: nat, d: nat)
    requires Listed(p, d) || Owns(p, d) || d == me
    ensures GetRole(p, d) == Some(ShownRole(p, d)) <==>
      if d in p.records then !p.records[d].roleId.UnknownId? && (p.records[d].roleId == CreatorId ==> Owns(p, d))
        else d in p.owners
  {
  }

  /** In every project that got there by assigning roles, they agree on every device shown, except on this
      device exactly as long as it has neither a role record nor a core ownership record. */
  lemma ShownAgreesAlways(core: nat, actions: seq<Action>, me: nat, d: nat)
    ensures var p := Run(Empty(core), actions);
      Listed(p, d) || Owns(p, d) || d == me ==>
        (GetRole(p, d) == Some(ShownRole(p, d)) <==> !(d == me && d !in p.records && d !in p.owners))
  {
    RunInv(Empty(core), actions);
    var p := Run(Empty(core), actions);
    if Listed(p, d) || Owns(p, d) || d == me {
      ShownAgrees(p, me, d);
      if d in p.records { assert RecordOk(p, d); }
    }
  }

  // ----- The class -----

  /** What a project's devices share, and the assignments under way. */
  class Store {
    var owners: map<nat, nat>
    var lengths: map<nat, nat>
    var records: map<nat, Record>
    ghost var calls: map<nat, Call>

    constructor ()
      ensures owners == map[] && lengths == map[] && records == map[] && calls == map[]
    {
      owners, lengths, records, calls := map[], map[], map[], map[];
    }
  }

  class Roles {
    const store: Store
    const projectCreatorAuthCoreId: nat
    const ownDeviceId: nat

    constructor (store: Store, projectCreatorAuthCoreId: nat, ownDeviceId: nat)
      ensures this.store == store && this.projectCreatorAuthCoreId == projectCreatorAuthCoreId
      ensures this.ownDeviceId == ownDeviceId
    {
      this.store, this.projectCreatorAuthCoreId, this.ownDeviceId := store, projectCreatorAuthCoreId, ownDeviceId;
    }

    ghost function State(): Project
      reads this, store
    {
      Project(projectCreatorAuthCoreId, store.owners, store.lengths, store.records, store.calls)
    }

    /** `getRole`. */
    method OwnRole() returns (role: Option<Role>)
      ensures role == GetRole(State(), ownDeviceId)
      ensures ownDeviceId in store.records && !store.records[ownDeviceId].roleId.UnknownId? ==>
        role.Some? && role.value.roleId == store.records[ownDeviceId].roleId
    {
      if ownDeviceId !in store.records {
        if ownDeviceId !in store.owners { return None; }
        return Some(if store.owners[ownDeviceId] == projectCreatorAuthCoreId then CREATOR_ROLE else NO_ROLE);
      }
      var roleId := store.records[ownDeviceId].roleId;
      return Some(if roleId.UnknownId? then BLOCKED_ROLE else RoleOf(roleId));
    }

    /** `getAll`: the creator first, then the records, then this device. */
    method GetAll() returns (result: map<nat, Role>)
      requires OneOwner(State())
      ensures forall d :: d in result <==> Listed(State(), d) || Owns(State(), d) || d == ownDeviceId
      ensures forall d :: d in result ==> result[d] == ShownRole(State(), d)
      ensures forall d :: d in result && d in store.records && Listed(State(), d) ==>
        result[d].roleId == store.records[d].roleId
    {
      result := map[];
      var projectCreatorDeviceId := None;
      if d :| d in store.owners && store.owners[d] == projectCreatorAuthCoreId {
        projectCreatorDeviceId := Some(d);
        result := result[d := CREATOR_ROLE];
      }
      ghost var p := State();
      var rest := store.records.Keys;
      while rest != {}
        invariant rest <= p.records.Keys
        invariant forall d :: d in result <==> (Listed(p, d) && d !in rest) || Owns(p, d)
        invariant forall d :: d in result ==> result[d] == if d in rest then CREATOR_ROLE else ShownRole(p, d)
        decreases rest
      {
        var deviceId :| deviceId in rest;
        rest := rest - {deviceId};
        var roleId := store.records[deviceId].roleId;
        if roleId.UnknownId? { continue; }
        if roleId == CreatorId { continue; }
        result := result[deviceId := RoleOf(roleId)];
      }
      if ownDeviceId !in result {
        var isProjectCreator := projectCreatorDeviceId == Some(ownDeviceId);
        result := result[ownDeviceId := if isProjectCreator then CREATOR_ROLE else NO_ROLE];
      }
    }

    /** The assignment `call` of this device, as far as it has come. */
    ghost predicate UnderWay(id: nat, call: Call)
      reads this, store
    {
      id in store.calls && store.calls[id] == call && call.me == ownDeviceId
    }

    /** `assignRole`, up to the look-up of the device's core. */
    method BeginAssign(ghost id: nat, deviceId: nat, roleId: RoleId, reason: Option<string>) returns (call: Call)
      requires id !in store.calls
      modifies store`calls
      ensures UnderWay(id, call) && call == NewCall(ownDeviceId, deviceId, roleId, reason)
      ensures State() == Next(old(State()), Begin(id, ownDeviceId, deviceId, roleId, reason))
    {
      call := Call(ownDeviceId, deviceId, roleId, reason, None, 0, LookUp);
      if roleId !in ASSIGNABLE_TO_ANYONE { call := call.(at := Over(Some(NotAssignable))); }
      store.calls := store.calls[id := call];
    }

    /** The check of a device's leaving; others go on to read the own role. */
    method CheckLeaving(call: Call) returns (next: Call)
      ensures next == AfterTarget(call)
    {
      if call.roleId == LeftId {
        if call.device != call.me { return call.(at := Over(Some(LeftOther))); }
        return call.(at := Find);
      }
      return call.(at := OwnRecord);
    }

    method CheckPermission(call: Call, ownRole: Role) returns (next: Call)
      ensures next == AfterRole(call, ownRole)
    {
      if call.roleId !in ownRole.roleAssignment { return call.(at := Over(Some(LacksPermission))); }
      return call.(at := Find);
    }

    /** When the look-up of the device's core is answered. */
    method TargetFound(ghost id: nat, call: Call) returns (next: Call)
      requires UnderWay(id, call) && call.at.LookUp?
      modifies store`calls
      ensures UnderWay(id, next) && State() == Next(old(State()), Proceed(id))
    {
      next := call;
      if call.device in store.owners {
        var authCoreId := store.owners[call.device];
        next := next.(authCoreId := Some(authCoreId), at := Ready);
      }
      if next.at.LookUp? || next.authCoreId.value !in store.lengths { next := CheckLeaving(next); }
      store.calls := store.calls[id := next];
    }

    /** When the device's core is ready. */
    method CoreReady(ghost id: nat, call: Call) returns (next: Call)
      requires UnderWay(id, call) && call.at.Ready? && call.authCoreId.Some? && call.authCoreId.value in store.lengths
      modifies store`calls
      ensures UnderWay(id, next) && State() == Next(old(State()), Proceed(id))
    {
      next := CheckLeaving(call.(fromIndex := store.lengths[call.authCoreId.value]));
      store.calls := store.calls[id := next];
    }

    /** When the own role record, or that there is none, is known. */
    method OwnRecordRead(ghost id: nat, call: Call) returns (next: Call)
      requires UnderWay(id, call) && call.at.OwnRecord?
      modifies store`calls
      ensures UnderWay(id, next) && State() == Next(old(State()), Proceed(id))
    {
      if ownDeviceId !in store.records {
        next := call.(at := OwnCore);
      } else {
        var roleId := store.records[ownDeviceId].roleId;
        next := CheckPermission(call, if roleId.UnknownId? then BLOCKED_ROLE else RoleOf(roleId));
      }
      store.calls := store.calls[id := next];
    }

    /** When the own core id is known. */
    method OwnCoreRead(ghost id: nat, call: Call) returns (next: Call)
      requires UnderWay(id, call) && call.at.OwnCore?
      modifies store`calls
      ensures UnderWay(id, next) && State() == Next(old(State()), Proceed(id))
    {
      if ownDeviceId !in store.owners {
        next := call.(at := Over(Some(UnknownOwnRole)));
      } else {
        var isCreator := store.owners[ownDeviceId] == projectCreatorAuthCoreId;
        next := CheckPermission(call, if isCreator then CREATOR_ROLE else NO_ROLE);
      }
      store.calls := store.calls[id := next];
    }

    /** When the device's role record, or that there is none, is known. */
    method RecordFound(ghost id: nat, call: Call) returns (next: Call)
      requires UnderWay(id, call) && call.at.Find?
      modifies store`calls
      ensures UnderWay(id, next) && State() == Next(old(State()), Proceed(id))
    {
      if call.device in store.records {
        next := call.(at := Update);
      } else {
        var isAssigningProjectCreatorRole := call.authCoreId == Some(projectCreatorAuthCoreId);
        var isAssigningSelf := call.device == ownDeviceId;
        if !isAssigningSelf && isAssigningProjectCreatorRole && call.roleId != BlockedId {
          next := call.(at := Over(Some(CreatorOnlyBlocked)));
        } else {
          next := call.(at := Create);
        }
      }
      store.calls := store.calls[id := next];
    }

    /** When the record is updated, or created unless there is one by now. */
    method FinishAssign(ghost id: nat, call: Call) returns (next: Call)
      requires UnderWay(id, call) && (call.at.Update? || call.at.Create?)
      modifies store`records, store`calls
      ensures UnderWay(id, next) && State() == Next(old(State()), Proceed(id))
    {
      next := call.(at := Over(None));
      if call.at.Update? {
        store.records := store.records[call.device := Record(call.roleId, call.fromIndex, call.reason)];
      } else if call.device in store.records {
        next := call.(at := Over(Some(AlreadyExists)));
      } else {
        store.records := store.records[call.device := Record(call.roleId, call.fromIndex, None)];
      }
      store.calls := store.calls[id := next];
    }

    /** `assignRole`, with nothing in between. */
    method AssignRoleTo(deviceId: nat, roleId: RoleId, reason: Option<string>, ghost id: nat)
      returns (error: Option<AssignError>)
      requires id !in store.calls
      modifies store`records, store`calls
      ensures id in store.calls && store.calls == old(store.calls)[id := store.calls[id]]
      ensures match Assign(old(State()), ownDeviceId, deviceId, roleId, reason)
        case Refused(e) => error == Some(e) && store.records == old(store.records)
        case Done(records) => error == None && store.records == records
    {
      ghost var p := State();
      var call := BeginAssign(id, deviceId, roleId, reason);
      call := ReadTarget(id, call, p);
      call := ReadOwnRole(id, call, p);
      ReadAll(p, ownDeviceId, deviceId, roleId, reason);
      call := WriteRole(id, call, p);
      error := call.at.error;
    }

    /** Since `p`, nothing has happened but that assignment `id` has come as far as `call`. */
    ghost predicate Since(p: Project, id: nat, call: Call)
      reads this, store
    {
      UnderWay(id, call) && State() == p.(calls := p.calls[id := call])
    }

    /** Everything about the device, in a row. */
    method ReadTarget(ghost id: nat, call: Call, ghost p: Project) returns (next: Call)
      requires Since(p, id, call) && (call.at.LookUp? || call.at.Over?)
      modifies store`calls
      ensures Since(p, id, next) && ReadOn(p, next) == ReadOn(p, call)
      ensures next.at.OwnRecord? || next.at.Find? || next.at.Over?
    {
      next := call;
      if next.at.LookUp? { next := TargetFound(id, next); }
      if next.at.Ready? { next := CoreReady(id, next); }
    }

    /** Find the record and write it, in a row. */
    method WriteRole(ghost id: nat, call: Call, ghost p: Project) returns (next: Call)
      requires Since(p, id, call) && (call.at.Find? || call.at.Over?)
      modifies store`records, store`calls
      ensures UnderWay(id, next) && store.calls == p.calls[id := next]
      ensures var c := ReadOn(p, call);
        store.records == Written(p, c) && next.at == if c.at.Over? then c.at else Over(None)
    {
      next := call;
      if next.at.Find? { next := RecordFound(id, next); }
      RecordRead(p, call);
      if next.at.Update? || next.at.Create? { next := FinishAssign(id, next); }
    }

    /** Everything about the own role, in a row. */
    method ReadOwnRole(ghost id: nat, call: Call, ghost p: Project) returns (next: Call)
      requires Since(p, id, call) && (call.at.OwnRecord? || call.at.Find? || call.at.Over?)
      modifies store`calls
      ensures Since(p, id, next) && ReadOn(p, next) == ReadOn(p, call)
      ensures next.at.Find? || next.at.Over?
    {
      next := call;
      if next.at.OwnRecord? { next := OwnRecordRead(id, next); }
      if next.at.OwnCore? { next := OwnCoreRead(id, next); }
    }
  }
}
