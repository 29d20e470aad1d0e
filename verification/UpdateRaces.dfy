/** An administrator's update whose database visits are interleaved with other operations. */
module UpdateRaces {
  import opened Wrappers
  import opened TtlStore
  import opened Directory
  import opened DirectoryLaws
  import opened Privileges
  import opened LoginRaces

  /** A PATCH of a user: who asks, whose row, and the two columns. */
  datatype Change = Change(actor: Uuid, user: Uuid, role: Patch<UserRole>, active: Patch<bool>)

  function AsOp(c: Change): Op {
    UpdateUser(c.actor, c.user, c.role, c.active)
  }

  /** The service's check, on the actor's and the user's rows as loaded. */
  predicate Permitted(actor: User, loaded: User, c: Change) {
    || c.role.Unset? || actor.role == SuperAdmin
    || !(IsAdminRole(loaded.role) || (c.role.Value? && IsAdminRole(c.role.value)))
  }

  /** The columns the flush writes: those the patch changed from what was loaded. */
  function ChangedRow(current: User, loaded: User, c: Change): User {
    current.(role := if c.role.Value? then Written(current.role, loaded.role, c.role.value) else current.role,
             isActive := if c.active.Value? then Written(current.isActive, loaded.isActive, c.active.value)
                         else current.isActive)
  }

  /** The flush on tables `t`, with the actor's row loaded by the gate and the user's by the service. */
  function SaveChange(t: Tables, actor: User, loaded: User, c: Change): Tables
    requires c.user in t.users
  {
    if loaded.deletedAt != None || !Permitted(actor, loaded, c) || c.role.Null? || c.active.Null? then t
    else WithUser(t, c.user, ChangedRow(t.users[c.user], loaded, c))
  }

  /** With nothing in between, the visits are the one operation of the model. */
  lemma UndisturbedUpdate(t: Tables, c: Change)
    requires c.actor in t.users && c.user in t.users
    ensures SaveChange(t, t.users[c.actor], t.users[c.user], c) == After(t, AsOp(c))
  {
    if LiveUser(t, c.user) && Permitted(t.users[c.actor], t.users[c.user], c) && !c.role.Null? && !c.active.Null? {
      assert ChangedRow(t.users[c.user], t.users[c.user], c) == After(t, AsOp(c)).users[c.user];
    }
  }

  /** The actor was a super administrator when loaded, is none by the flush, and an administrator role is at stake. */
  predicate ActorOutdated(t: Tables, actor: User, c: Change)
    requires c.user in t.users && c.role.Value?
  {
    && actor.role == SuperAdmin && !(c.actor in t.users && t.users[c.actor].role == SuperAdmin)
    && (IsAdminRole(c.role.value) || IsAdminRole(t.users[c.user].role))
  }

  /** The actor is none at either, and the user has become an administrator since the check looked. */
  predicate UserOutdated(t: Tables, actor: User, loaded: User, c: Change)
    requires c.user in t.users && c.role.Value?
  {
    && actor.role != SuperAdmin && !(c.actor in t.users && t.users[c.actor].role == SuperAdmin)
    && !IsAdminRole(c.role.value) && !IsAdminRole(loaded.role) && IsAdminRole(t.users[c.user].role)
  }

  /** The flush writes a role over another one, on rows outdated in one of these two ways. */
  predicate Overrides(t: Tables, actor: User, loaded: User, c: Change)
    requires c.user in t.users
  {
    && loaded.deletedAt == None && c.role.Value? && !c.active.Null?
    && c.role.value != loaded.role && c.role.value != t.users[c.user].role
    && (ActorOutdated(t, actor, c) || UserOutdated(t, actor, loaded, c))
  }

  /** At the flush, an administrator role moves without an allowed cause exactly if the update overrides. */
  lemma SavedMoveExactly(t: Tables, actor: User, loaded: User, c: Change)
    requires c.user in t.users
    ensures var t' := SaveChange(t, actor, loaded, c);
            && t'.users.Keys == t.users.Keys && (forall u :: u in t.users && u != c.user ==> t'.users[u] == t.users[u])
            && (RoleMoveAllowed(t, AsOp(c), c.user, t'.users[c.user].role) <==> !Overrides(t, actor, loaded, c))
  {
  }

  /**
   * The user's row as the service has it: loaded after `ops1`, but for an actor's own row, of which the session
   * keeps the values the gate loaded.
   */
  ghost function LoadedRow(t0: Tables, t1: Tables, c: Change): User
    requires c.actor in t0.users && c.user in t1.users
  {
    if c.user == c.actor then t0.users[c.actor].(deletedAt := t1.users[c.user].deletedAt) else t1.users[c.user]
  }

  /**
   * The tables after an update, `ops1` having run since the gate loaded the actor and `ops2` since the service
   * loaded the user.
   */
  ghost function InterleavedUpdate(t0: Tables, ops1: seq<Op>, ops2: seq<Op>, c: Change): Tables
    requires Valid(t0) && c.actor in t0.users && c.user in AfterAll(t0, ops1).users
  {
    UserStays(t0, ops1, ops2, c.user);
    SaveChange(AtFlush(t0, ops1, ops2), t0.users[c.actor], LoadedRow(t0, AfterAll(t0, ops1), c), c)
  }

  lemma UserStays(t0: Tables, ops1: seq<Op>, ops2: seq<Op>, user: Uuid)
    requires Valid(t0) && user in AfterAll(t0, ops1).users
    ensures user in AtFlush(t0, ops1, ops2).users
  {
    RowsPersistOverRuns(t0, ops1);
    RowsPersistOverRuns(AfterAll(t0, ops1), ops2);
  }

  /**
   * With any operations between its visits, an update moves an administrator role without an allowed cause exactly
   * if what its check looked at was outdated by the flush in one of these two ways.
   */
  lemma InterleavedUpdateMovesExactly(t0: Tables, ops1: seq<Op>, ops2: seq<Op>, c: Change)
    requires Valid(t0) && c.actor in t0.users && c.user in AfterAll(t0, ops1).users
    ensures c.user in AtFlush(t0, ops1, ops2).users
    ensures var t2, t3 := AtFlush(t0, ops1, ops2), InterleavedUpdate(t0, ops1, ops2, c);
            && t3.users.Keys == t2.users.Keys
            && (forall u :: u in t2.users && u != c.user ==> t3.users[u] == t2.users[u])
            && (RoleMoveAllowed(t2, AsOp(c), c.user, t3.users[c.user].role)
                <==> !Overrides(t2, t0.users[c.actor], LoadedRow(t0, AfterAll(t0, ops1), c), c))
  {
    UserStays(t0, ops1, ops2, c.user);
    SavedMoveExactly(AtFlush(t0, ops1, ops2), t0.users[c.actor], LoadedRow(t0, AfterAll(t0, ops1), c), c);
  }

  /** Each way needs a super administrator's own update between the visits: of the actor, or of the user. */
  lemma OverridingHasCause(t0: Tables, ops1: seq<Op>, ops2: seq<Op>, c: Change)
    returns (i: nat, whose: Uuid, role: UserRole)
    requires Valid(t0) && c.actor in t0.users && c.user in AfterAll(t0, ops1).users
    requires c.user in AtFlush(t0, ops1, ops2).users
    requires Overrides(AtFlush(t0, ops1, ops2), t0.users[c.actor], LoadedRow(t0, AfterAll(t0, ops1), c), c)
    ensures i < |ops1 + ops2| && SuperAdminSets(AfterAll(t0, (ops1 + ops2)[..i]), (ops1 + ops2)[i], whose, role)
    ensures || (whose == c.actor && role != SuperAdmin)
            || (whose == c.user && IsAdminRole(role) && (c.user != c.actor ==> i >= |ops1|))
  {
    var t1, t2 := AfterAll(t0, ops1), AtFlush(t0, ops1, ops2);
    AfterConcat(t0, ops1, ops2);
    if ActorOutdated(t2, t0.users[c.actor], c) {
      whose := c.actor;
      i, role := EverySuperAdminLossHasSponsor(t0, ops1 + ops2, c.actor);
    } else {
      whose, role := c.user, t2.users[c.user].role;
      if c.user == c.actor {
        i := EveryPromotionHasSponsor(t0, ops1 + ops2, c.user, role);
      } else {
        var j := EveryPromotionHasSponsor(t1, ops2, c.user, role);
        i := |ops1| + j;
        assert (ops1 + ops2)[..i] == ops1 + ops2[..j];
        AfterConcat(t0, ops1, ops2[..j]);
      }
    }
  }

  // ------------------------------------------------ the failure, at a concrete input

  /** An employee (1) who has asked for permission, an administrator (2), a super administrator (3). */
  function Panel(): Tables {
    Tables(map[1 := Row("a", "A", PermissionRequested), 2 := Row("b", "B", Admin), 3 := Row("c", "C", SuperAdmin)],
           map[])
  }

  lemma PanelValid()
    ensures Valid(Panel())
  {
    var users := Panel().users;
    assert "a" != "b" && "a" != "c" && "b" != "c";
    assert !SharesKey(users[1], users[2]) && !SharesKey(users[1], users[3]) && !SharesKey(users[2], users[3]);
  }

  /** An administrator's routine update takes away the role a super administrator has just given. */
  lemma AdminOverridesPromotion()
    ensures var t := Panel(); var op := UpdateUser(3, 1, Value(SuperAdmin), Unset);
            var c := Change(2, 1, Value(Regular), Unset);
            && Valid(t) && AfterAll(t, []) == t && Has(AtFlush(t, [], [op]), 1, SuperAdmin)
            && Has(InterleavedUpdate(t, [], [op], c), 1, Regular)
            && !RoleMoveAllowed(AtFlush(t, [], [op]), AsOp(c), 1, Regular)
  {
    PanelValid();
    OneOp(Panel(), UpdateUser(3, 1, Value(SuperAdmin), Unset));
    UserStays(Panel(), [], [UpdateUser(3, 1, Value(SuperAdmin), Unset)], 1);
  }
}
