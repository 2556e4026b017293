/** Role permissions, per-user overrides, and the seeding that runs on every boot. */
module Permissions {
  import opened Wrappers
  import Throughout

  type Id = string
  type Code = string

  datatype Role = SuperUser | Admin | Receptionist | OtherRole(name: string)

  datatype Override = Override(user: Id, code: Code, granted: bool)

  datatype Mode = Grant | Revoke | Clear

  /** `known` is the permission table both kinds of row refer to. */
  datatype Tables = Tables(known: set<Code>, roleRows: set<(Role, Code)>, overrides: seq<Override>)

  // ---------------------------------------------------------------- overrides

  predicate IsFor(o: Override, user: Id, code: Code) {
    o.user == user && o.code == code
  }

  /** The table has at most one override for each user and code. */
  ghost predicate Unique(rows: seq<Override>) {
    forall i, j :: 0 <= i < j < |rows| ==> !IsFor(rows[i], rows[j].user, rows[j].code)
  }

  function IndexOf(rows: seq<Override>, user: Id, code: Code): (found: Option<nat>)
    ensures found.Some? ==> found.value < |rows| && IsFor(rows[found.value], user, code)
    ensures found.None? ==> forall i :: 0 <= i < |rows| ==> !IsFor(rows[i], user, code)
  {
    if |rows| == 0 then None
    else if IsFor(rows[|rows| - 1], user, code) then Some(|rows| - 1)
    else IndexOf(rows[..|rows| - 1], user, code)
  }

  function Lookup(rows: seq<Override>, user: Id, code: Code): Option<bool> {
    match IndexOf(rows, user, code)
    case Some(i) => Some(rows[i].granted)
    case None => None
  }

  function Put(rows: seq<Override>, user: Id, code: Code, granted: bool): seq<Override> {
    match IndexOf(rows, user, code)
    case Some(i) => rows[i := Override(user, code, granted)]
    case None => rows + [Override(user, code, granted)]
  }

  function Drop(rows: seq<Override>, user: Id, code: Code): seq<Override> {
    if |rows| == 0 then []
    else Drop(rows[..|rows| - 1], user, code) + if IsFor(rows[|rows| - 1], user, code) then [] else [rows[|rows| - 1]]
  }

  lemma UniqueLookup(rows: seq<Override>, i: nat)
    requires Unique(rows) && i < |rows|
    ensures Lookup(rows, rows[i].user, rows[i].code) == Some(rows[i].granted)
  {
  }

  lemma LookupIsMembership(rows: seq<Override>, user: Id, code: Code, granted: bool)
    requires Unique(rows)
    ensures Lookup(rows, user, code) == Some(granted) <==> Override(user, code, granted) in rows
  {
  }

  lemma PutReplaces(rows: seq<Override>, user: Id, code: Code, granted: bool)
    requires Unique(rows)
    ensures Unique(Put(rows, user, code, granted))
    ensures forall o :: o in Put(rows, user, code, granted) <==>
              o == Override(user, code, granted) || (o in rows && !IsFor(o, user, code))
  {
    var after, i := Put(rows, user, code, granted), IndexOf(rows, user, code);
    if i.Some? {
      assert after[i.value] == Override(user, code, granted);
      forall o | o in rows && !IsFor(o, user, code)
        ensures o in after
      {
        var k :| 0 <= k < |rows| && rows[k] == o;
        assert after[k] == o;
      }
    }
  }

  lemma PutIsUpdate(rows: seq<Override>, user: Id, code: Code, granted: bool, u: Id, c: Code)
    requires Unique(rows)
    ensures Unique(Put(rows, user, code, granted))
    ensures Lookup(Put(rows, user, code, granted), u, c) ==
            if u == user && c == code then Some(granted) else Lookup(rows, u, c)
  {
    PutReplaces(rows, user, code, granted);
    forall g: bool
      ensures Lookup(Put(rows, user, code, granted), u, c) == Some(g) <==>
              if u == user && c == code then g == granted else Lookup(rows, u, c) == Some(g)
    {
      LookupIsMembership(rows, u, c, g);
      LookupIsMembership(Put(rows, user, code, granted), u, c, g);
    }
  }

  lemma {:induction false} DropFilters(rows: seq<Override>, user: Id, code: Code)
    requires Unique(rows)
    ensures Unique(Drop(rows, user, code))
    ensures forall o :: o in Drop(rows, user, code) <==> o in rows && !IsFor(o, user, code)
  {
    if |rows| > 0 {
      var front, last := rows[..|rows| - 1], rows[|rows| - 1];
      DropFilters(front, user, code);
      assert rows == front + [last];
      forall i | 0 <= i < |Drop(front, user, code)|
        ensures !IsFor(Drop(front, user, code)[i], last.user, last.code)
      {
        assert Drop(front, user, code)[i] in front;
      }
    }
  }

  lemma DropIsRemoval(rows: seq<Override>, user: Id, code: Code, u: Id, c: Code)
    requires Unique(rows)
    ensures Unique(Drop(rows, user, code))
    ensures Lookup(Drop(rows, user, code), u, c) ==
            if u == user && c == code then None else Lookup(rows, u, c)
  {
    DropFilters(rows, user, code);
    forall g: bool
      ensures Lookup(Drop(rows, user, code), u, c) == Some(g) <==> Lookup(rows, u, c) == Some(g) && !(u == user && c == code)
    {
      LookupIsMembership(rows, u, c, g);
      LookupIsMembership(Drop(rows, user, code), u, c, g);
    }
  }

  // ---------------------------------------------------------------- effective permissions

  /** The loop of effectivePermissions over the rows as the database happens to return them. */
  function Applied(base: set<Code>, rows: seq<Override>): set<Code> {
    if |rows| == 0 then base
    else
      var sofar := Applied(base, rows[..|rows| - 1]);
      var o := rows[|rows| - 1];
      if o.granted then sofar + {o.code} else sofar - {o.code}
  }

  function RoleCodes(t: Tables, role: Role): set<Code> {
    set x | x in t.roleRows && x.0 == role :: x.1
  }

  /** `rows` is one order in which the user's overrides may be read. */
  ghost predicate ReadsOverrides(t: Tables, user: Id, rows: seq<Override>) {
    Unique(rows) && forall o :: o in rows <==> o in t.overrides && o.user == user
  }

  method EffectivePermissions(t: Tables, user: Id, role: Role, rows: seq<Override>) returns (codes: set<Code>)
    requires Unique(t.overrides) && ReadsOverrides(t, user, rows)
    ensures forall c :: c in codes <==>
              match Lookup(t.overrides, user, c)
              case Some(granted) => granted
              case None => (role, c) in t.roleRows
  {
    codes := RoleCodes(t, role);
    for n := 0 to |rows|
      invariant codes == Applied(RoleCodes(t, role), rows[..n])
    {
      assert rows[..n + 1][..n] == rows[..n];
      if rows[n].granted {
        codes := codes + {rows[n].code};
      } else {
        codes := codes - {rows[n].code};
      }
    }
    assert rows[..|rows|] == rows;
    forall c
      ensures c in codes <==> match Lookup(t.overrides, user, c) case Some(granted) => granted case None => (role, c) in t.roleRows
    {
      EffectiveIff(t, user, role, rows, c);
    }
  }

  lemma {:induction false} AppliedIff(base: set<Code>, rows: seq<Override>, user: Id, c: Code)
    requires Unique(rows) && forall o :: o in rows ==> o.user == user
    ensures c in Applied(base, rows) <==>
            match Lookup(rows, user, c)
            case Some(granted) => granted
            case None => c in base
  {
    if |rows| > 0 {
      AppliedIff(base, rows[..|rows| - 1], user, c);
      assert rows[|rows| - 1] in rows;
    }
  }

  /** The result is fixed by the tables alone; the order in which rows are read is not in it. */
  lemma EffectiveIff(t: Tables, user: Id, role: Role, rows: seq<Override>, c: Code)
    requires Unique(t.overrides) && ReadsOverrides(t, user, rows)
    ensures c in Applied(RoleCodes(t, role), rows) <==>
            match Lookup(t.overrides, user, c)
            case Some(granted) => granted
            case None => (role, c) in t.roleRows
  {
    AppliedIff(RoleCodes(t, role), rows, user, c);
    var here := IndexOf(rows, user, c);
    if here.Some? {
      assert rows[here.value] in t.overrides;
      var k :| 0 <= k < |t.overrides| && t.overrides[k] == rows[here.value];
      UniqueLookup(t.overrides, k);
    }
  }

  // ---------------------------------------------------------------- seeding

  /** The catalogue in code, with the sets the role defaults are cut from. */
  datatype Catalogue = Catalogue(codes: seq<Code>, adminExcluded: set<Code>, receptionist: set<Code>)

  function CodesOf(cat: Catalogue): set<Code> {
    set c | c in cat.codes
  }

  function DefaultsFor(cat: Catalogue, role: Role): set<Code> {
    var all := CodesOf(cat);
    match role
    case SuperUser => all
    case Admin => all - cat.adminExcluded
    case Receptionist => all * cat.receptionist
    case OtherRole(_) => {}
  }

  /** What a role starts with: the super user everything, an administrator everything but the
      excluded codes, a receptionist the listed codes the catalogue has, any other role nothing. */
  lemma DefaultsAre(cat: Catalogue, role: Role, c: Code)
    ensures c in DefaultsFor(cat, role) <==>
            && c in cat.codes
            && ((role == SuperUser) || (role == Admin && c !in cat.adminExcluded) || (role == Receptionist && c in cat.receptionist))
  {
  }

  function Kept(cat: Catalogue, rows: set<(Role, Code)>): set<(Role, Code)> {
    set x | x in rows && x.1 in cat.codes
  }

  predicate HasRow(rows: set<(Role, Code)>, role: Role) {
    exists x :: x in rows && x.0 == role
  }

  function WithDefaults(cat: Catalogue, rows: set<(Role, Code)>, role: Role): set<(Role, Code)> {
    if HasRow(rows, role) then rows else rows + set c | c in DefaultsFor(cat, role) :: (role, c)
  }

  function Seeded(cat: Catalogue, rows: set<(Role, Code)>): set<(Role, Code)> {
    var kept := Kept(cat, rows);
    WithDefaults(cat, WithDefaults(cat, WithDefaults(cat, kept, SuperUser), Admin), Receptionist)
  }

  /** A role with a catalogue code keeps exactly its catalogue codes; any other gets its defaults. */
  lemma SeedRespectsAdmins(cat: Catalogue, rows: set<(Role, Code)>, role: Role)
    ensures forall c :: (role, c) in Seeded(cat, rows) <==>
              if HasRow(Kept(cat, rows), role) then (role, c) in rows && c in cat.codes else c in DefaultsFor(cat, role)
  {
  }

  /** Booting twice is booting once. */
  lemma SeedIsIdempotent(cat: Catalogue, rows: set<(Role, Code)>)
    ensures Seeded(cat, Seeded(cat, rows)) == Seeded(cat, rows)
  {
  }

  // ---------------------------------------------------------------- the writers

  class PermissionStore {
    var known: set<Code>
    var roleRows: set<(Role, Code)>
    var overrides: seq<Override>

    function Value(): Tables
      reads this
    {
      Tables(known, roleRows, overrides)
    }

    constructor (known: set<Code>)
      ensures Value() == Tables(known, {}, [])
    {
      this.known, roleRows, overrides := known, {}, [];
    }

    /** A code missing from the permission table fails the transaction and nothing changes. */
    method SetRolePermissions(role: Role, codes: seq<Code>) returns (ok: bool)
      modifies `roleRows
      ensures Value() == Performed(old(Value()), SetRole(role, codes))
      ensures ok <==> Accepted(old(Value()), SetRole(role, codes))
    {
      var unique := set c | c in codes;
      if !(unique <= known) {
        return false;
      }
      roleRows := set x | x in roleRows && x.0 != role;
      roleRows := roleRows + set c | c in unique :: (role, c);
      return true;
    }

    method SetUserOverride(user: Id, code: Code, mode: Mode) returns (ok: bool)
      modifies `overrides
      ensures Value() == Performed(old(Value()), SetOverride(user, code, mode))
      ensures ok <==> Accepted(old(Value()), SetOverride(user, code, mode))
    {
      if mode == Clear {
        overrides := Drop(overrides, user, code);
        return true;
      }
      if code !in known {
        return false;
      }
      var granted := mode == Grant;
      var existing := IndexOf(overrides, user, code);
      if existing.Some? {
        overrides := overrides[existing.value := Override(user, code, granted)];
      } else {
        overrides := overrides + [Override(user, code, granted)];
      }
      return true;
    }
  }

  /** The seeding loops of a boot. */
  method Seed(store: PermissionStore, cat: Catalogue)
    modifies store
    ensures store.Value() == Performed(old(store.Value()), Boot(cat))
  {
    for n := 0 to |cat.codes|
      invariant store.known == old(store.known) + (set c | c in cat.codes[..n])
      invariant store.roleRows == old(store.roleRows) && store.overrides == old(store.overrides)
    {
      store.known := store.known + {cat.codes[n]};
    }
    var catalogCodes := set c | c in cat.codes;
    var stale := set x | x in store.roleRows && x.1 !in catalogCodes;
    store.roleRows := store.roleRows - stale;
    assert store.roleRows == Kept(cat, old(store.roleRows));
    SeedRole(store, cat, SuperUser);
    SeedRole(store, cat, Admin);
    SeedRole(store, cat, Receptionist);
  }

  /** One turn of the role loop: a role that has any row is left alone. */
  method SeedRole(store: PermissionStore, cat: Catalogue, role: Role)
    modifies store`roleRows
    ensures store.roleRows == WithDefaults(cat, old(store.roleRows), role)
  {
    var mine := set x | x in store.roleRows && x.0 == role;
    if |mine| > 0 {
      var y :| y in mine;
      assert HasRow(store.roleRows, role);
      return;
    }
    assert mine == {};
    assert !HasRow(store.roleRows, role) by {
      assert forall x :: x in store.roleRows && x.0 == role ==> x in mine;
    }
    store.roleRows := store.roleRows + set c | c in DefaultsFor(cat, role) :: (role, c);
  }

  // ---------------------------------------------------------------- histories

  datatype Command =
    | SetRole(role: Role, codes: seq<Code>)
    | SetOverride(user: Id, code: Code, mode: Mode)
    | Boot(cat: Catalogue)

  predicate Accepted(t: Tables, cmd: Command) {
    match cmd
    case SetRole(_, codes) => forall c :: c in codes ==> c in t.known
    case SetOverride(_, code, mode) => mode == Clear || code in t.known
    case Boot(_) => true
  }

  function Performed(t: Tables, cmd: Command): Tables {
    if !Accepted(t, cmd) then t
    else match cmd
         case SetRole(role, codes) =>
           t.(roleRows := (set x | x in t.roleRows && x.0 != role) + (set c | c in codes :: (role, c)))
         case SetOverride(user, code, mode) =>
           t.(overrides := if mode == Clear then Drop(t.overrides, user, code) else Put(t.overrides, user, code, mode == Grant))
         case Boot(cat) =>
           t.(known := t.known + CodesOf(cat), roleRows := Seeded(cat, t.roleRows))
  }

  /** Which commands go through: a save of known codes, a grant or a revocation of a known code,
      a clear of any, and every boot; what does not changes nothing. */
  lemma CommandAccepted(t: Tables, cmd: Command)
    ensures cmd.SetRole? ==> (Accepted(t, cmd) <==> forall c :: c in cmd.codes ==> c in t.known)
    ensures cmd.SetOverride? ==> (Accepted(t, cmd) <==> cmd.mode == Clear || cmd.code in t.known)
    ensures cmd.Boot? ==> Accepted(t, cmd)
    ensures !Accepted(t, cmd) ==> Performed(t, cmd) == t
  {
  }

  /** A save changes the rows of its role alone, to exactly the codes saved. */
  lemma SaveWrites(t: Tables, role: Role, codes: seq<Code>, other: Role, c: Code)
    requires Accepted(t, SetRole(role, codes))
    ensures var after := Performed(t, SetRole(role, codes));
            && after.known == t.known && after.overrides == t.overrides
            && ((other, c) in after.roleRows <==> if other == role then c in codes else (other, c) in t.roleRows)
  {
  }

  /** An override leaves the user granted or revoked the code, or with neither once cleared, and
      leaves every other user and code, and all roles, as they were. */
  lemma OverrideWrites(t: Tables, user: Id, code: Code, mode: Mode, u: Id, c: Code, granted: bool)
    requires Unique(t.overrides) && Accepted(t, SetOverride(user, code, mode))
    ensures var after := Performed(t, SetOverride(user, code, mode));
            && after.known == t.known && after.roleRows == t.roleRows
            && (Override(u, c, granted) in after.overrides <==>
                if u == user && c == code then (mode == Grant && granted) || (mode == Revoke && !granted)
                else Override(u, c, granted) in t.overrides)
  {
    if mode == Clear {
      DropFilters(t.overrides, user, code);
    } else {
      PutReplaces(t.overrides, user, code, mode == Grant);
    }
  }

  /** A boot makes every code of the catalogue known, and of the role rows keeps those of the
      catalogue, filling a role that has none of them with its defaults. */
  lemma BootWrites(t: Tables, cat: Catalogue, role: Role, c: Code)
    ensures var after := Performed(t, Boot(cat));
            && after.overrides == t.overrides
            && (c in after.known <==> c in t.known || c in cat.codes)
            && ((role, c) in after.roleRows <==>
                if exists k :: k in cat.codes && (role, k) in t.roleRows then (role, c) in t.roleRows && c in cat.codes
                else c in DefaultsFor(cat, role))
  {
    SeedRespectsAdmins(cat, t.roleRows, role);
    if k :| k in cat.codes && (role, k) in t.roleRows {
      assert (role, k) in Kept(cat, t.roleRows);
    }
    if x :| x in Kept(cat, t.roleRows) && x.0 == role {
      assert x.1 in cat.codes && (role, x.1) in t.roleRows;
    }
  }

  function Run(t: Tables, cmds: seq<Command>): Tables {
    if |cmds| == 0 then t else Performed(Run(t, cmds[..|cmds| - 1]), cmds[|cmds| - 1])
  }

  /** The last accepted word on a user's code: granted, revoked, or nothing since the last
      clear; before the first word, whatever the tables said at the start. */
  function LastWord(t: Tables, cmds: seq<Command>, user: Id, code: Code): Option<bool> {
    if |cmds| == 0 then Lookup(t.overrides, user, code)
    else
      var (front, cmd) := (cmds[..|cmds| - 1], cmds[|cmds| - 1]);
      if cmd.SetOverride? && cmd.user == user && cmd.code == code && Accepted(Run(t, front), cmd)
      then (if cmd.mode == Clear then None else Some(cmd.mode == Grant))
      else LastWord(t, front, user, code)
  }

  /** What one boot makes of a role's codes: the ones its catalogue still has or, when it has
      none of them, the defaults. */
  function AfterBoot(cat: Catalogue, role: Role, codes: set<Code>): set<Code> {
    if codes * CodesOf(cat) != {} then codes * CodesOf(cat) else DefaultsFor(cat, role)
  }

  /** The set of the role last saved, passed through the boots since; before the first save,
      the rows of the start. */
  function Configured(t: Tables, cmds: seq<Command>, role: Role): set<Code> {
    if |cmds| == 0 then RoleCodes(t, role)
    else
      var (front, cmd) := (cmds[..|cmds| - 1], cmds[|cmds| - 1]);
      if cmd.SetRole? && cmd.role == role && Accepted(Run(t, front), cmd) then set c | c in cmd.codes
      else if cmd.Boot? then AfterBoot(cmd.cat, role, Configured(t, front, role))
      else Configured(t, front, role)
  }

  /** One command, seen from one user's code. */
  lemma CommandEffect(t: Tables, cmd: Command, user: Id, code: Code)
    requires Unique(t.overrides)
    ensures var after := Performed(t, cmd);
            && Unique(after.overrides)
            && Lookup(after.overrides, user, code) ==
               (if cmd.SetOverride? && cmd.user == user && cmd.code == code && Accepted(t, cmd)
                then (if cmd.mode == Clear then None else Some(cmd.mode == Grant))
                else Lookup(t.overrides, user, code))
  {
    if cmd.SetOverride? && cmd.mode == Clear {
      DropIsRemoval(t.overrides, cmd.user, cmd.code, user, code);
    } else if cmd.SetOverride? {
      PutIsUpdate(t.overrides, cmd.user, cmd.code, cmd.mode == Grant, user, code);
    }
  }

  /** One command, seen from one role. */
  lemma RoleEffect(t: Tables, cmd: Command, role: Role)
    ensures RoleCodes(Performed(t, cmd), role) ==
            if cmd.SetRole? && cmd.role == role && Accepted(t, cmd) then set c | c in cmd.codes
            else if cmd.Boot? then AfterBoot(cmd.cat, role, RoleCodes(t, role))
            else RoleCodes(t, role)
  {
    match cmd
    case SetRole(_, _) => SaveEffect(t, cmd, role);
    case SetOverride(_, _, _) =>
    case Boot(cat) => BootEffect(t, cat, role);
  }

  lemma InRole(t: Tables, role: Role, c: Code)
    ensures c in RoleCodes(t, role) <==> (role, c) in t.roleRows
  {
    if (role, c) in t.roleRows {
      var x := (role, c);
      assert x in t.roleRows && x.0 == role && x.1 == c;
    }
  }

  lemma SaveEffect(t: Tables, cmd: Command, role: Role)
    requires cmd.SetRole?
    ensures RoleCodes(Performed(t, cmd), role) ==
            if cmd.role == role && Accepted(t, cmd) then set c | c in cmd.codes else RoleCodes(t, role)
  {
    forall c
      ensures c in RoleCodes(Performed(t, cmd), role) <==>
              if cmd.role == role && Accepted(t, cmd) then c in cmd.codes else c in RoleCodes(t, role)
    {
      InRole(t, role, c);
      InRole(Performed(t, cmd), role, c);
    }
  }

  lemma BootEffect(t: Tables, cat: Catalogue, role: Role)
    ensures RoleCodes(Performed(t, Boot(cat)), role) == AfterBoot(cat, role, RoleCodes(t, role))
  {
    SeedRespectsAdmins(cat, t.roleRows, role);
    KeptCodes(t, cat, role);
    forall c
      ensures c in RoleCodes(Performed(t, Boot(cat)), role) <==> c in AfterBoot(cat, role, RoleCodes(t, role))
    {
      InRole(t, role, c);
      InRole(Performed(t, Boot(cat)), role, c);
    }
  }

  lemma KeptCodes(t: Tables, cat: Catalogue, role: Role)
    ensures HasRow(Kept(cat, t.roleRows), role) <==> RoleCodes(t, role) * CodesOf(cat) != {}
  {
    var kept := RoleCodes(t, role) * CodesOf(cat);
    if kept != {} {
      var c :| c in kept;
      InRole(t, role, c);
      assert (role, c) in Kept(cat, t.roleRows);
    }
    if x :| x in Kept(cat, t.roleRows) && x.0 == role {
      assert x.1 in kept;
    }
  }

  lemma {:induction false} RunRemembersLast(t: Tables, cmds: seq<Command>, user: Id, role: Role, code: Code)
    requires Unique(t.overrides)
    ensures var now := Run(t, cmds);
            && Unique(now.overrides)
            && Lookup(now.overrides, user, code) == LastWord(t, cmds, user, code)
            && RoleCodes(now, role) == Configured(t, cmds, role)
  {
    if |cmds| > 0 {
      var n := |cmds| - 1;
      RunRemembersLast(t, cmds[..n], user, role, code);
      CommandEffect(Run(t, cmds[..n]), cmds[n], user, code);
      RoleEffect(Run(t, cmds[..n]), cmds[n], role);
    }
  }

  /** For every history of saves, overrides and boots, from any tables, a code is effective for
      a user exactly when the last uncleared override grants it, or there is none and the role's
      set, as last saved and carried through the boots since, has it; the order in which
      override rows are read makes no difference. */
  lemma EffectiveAfterRun(t: Tables, cmds: seq<Command>, user: Id, role: Role, code: Code, rows: seq<Override>)
    requires Unique(t.overrides) && ReadsOverrides(Run(t, cmds), user, rows)
    ensures code in Applied(RoleCodes(Run(t, cmds), role), rows) <==>
            match LastWord(t, cmds, user, code)
            case Some(granted) => granted
            case None => code in Configured(t, cmds, role)
  {
    RunRemembersLast(t, cmds, user, role, code);
    EffectiveIff(Run(t, cmds), user, role, rows, code);
    InRole(Run(t, cmds), role, code);
  }

  // ---------------------------------------------------------------- what a save is worth

  /** A boot leaves the set alone: it retires none of its codes and finds something to keep,
      unless there are no defaults to fall back to. */
  predicate Leaves(cat: Catalogue, role: Role, codes: set<Code>) {
    codes <= CodesOf(cat) && (codes != {} || DefaultsFor(cat, role) == {})
  }

  /** No save of the role is accepted along the way. */
  ghost predicate NoSave(t: Tables, cmds: seq<Command>, role: Role) {
    forall k :: 0 <= k < |cmds| && cmds[k].SetRole? && cmds[k].role == role ==> !Accepted(Run(t, cmds[..k]), cmds[k])
  }

  ghost predicate AllBootsLeave(cmds: seq<Command>, role: Role, codes: set<Code>) {
    forall cmd :: cmd in cmds && cmd.Boot? ==> Leaves(cmd.cat, role, codes)
  }

  ghost predicate HasSetAt(t: Tables, cmds: seq<Command>, k: nat, role: Role, codes: set<Code>)
    requires k <= |cmds|
  {
    RoleCodes(Run(t, cmds[..k]), role) == codes
  }

  ghost predicate Stays(t: Tables, cmds: seq<Command>, role: Role, codes: set<Code>) {
    forall k :: 0 <= k <= |cmds| ==> HasSetAt(t, cmds, k, role, codes)
  }

  lemma LeavesIff(cat: Catalogue, role: Role, codes: set<Code>)
    ensures AfterBoot(cat, role, codes) == codes <==> Leaves(cat, role, codes)
  {
    if codes <= CodesOf(cat) {
      assert codes * CodesOf(cat) == codes;
    }
  }

  lemma OneMoreCommand(t: Tables, cmds: seq<Command>, k: nat)
    requires k < |cmds|
    ensures Run(t, cmds[..k + 1]) == Performed(Run(t, cmds[..k]), cmds[k])
  {
    assert cmds[..k + 1][..k] == cmds[..k];
  }

  /** Exactly when a role's set outlives what follows: with no later save of the role it stays
      as it is throughout if and only if every boot has all its codes in the catalogue and the
      set is not empty or the role has no defaults. A role saved with nothing ticked is
      therefore given its defaults again by the next boot. */
  lemma SetStaysIff(t: Tables, cmds: seq<Command>, role: Role)
    requires NoSave(t, cmds, role)
    ensures Stays(t, cmds, role, RoleCodes(t, role)) <==> AllBootsLeave(cmds, role, RoleCodes(t, role))
  {
    var codes := RoleCodes(t, role);
    var good := k => 0 <= k <= |cmds| && HasSetAt(t, cmds, k, role, codes);
    var fits := k => 0 <= k < |cmds| && (cmds[k].Boot? ==> Leaves(cmds[k].cat, role, codes));
    forall k | 0 <= k < |cmds| && good(k)
      ensures good(k + 1) <==> fits(k)
    {
      OneMoreCommand(t, cmds, k);
      RoleEffect(Run(t, cmds[..k]), cmds[k], role);
      if cmds[k].Boot? {
        LeavesIff(cmds[k].cat, role, codes);
      }
    }
    Throughout.GoodThroughoutIff(good, fits, |cmds|);
    assert forall k :: 0 <= k <= |cmds| ==> (good(k) <==> HasSetAt(t, cmds, k, role, codes));
    assert forall k :: 0 <= k < |cmds| ==> (fits(k) <==> (cmds[k].Boot? ==> Leaves(cmds[k].cat, role, codes)));
  }

  /** The saved set itself: right after an accepted save the role has exactly the codes saved,
      and they outlive what follows under the same condition. */
  lemma SaveStaysIff(t: Tables, role: Role, codes: seq<Code>, rest: seq<Command>)
    requires Accepted(t, SetRole(role, codes))
    requires NoSave(Performed(t, SetRole(role, codes)), rest, role)
    ensures var saved := set c | c in codes;
            Stays(Performed(t, SetRole(role, codes)), rest, role, saved) <==> AllBootsLeave(rest, role, saved)
  {
    SaveEffect(t, SetRole(role, codes), role);
    SetStaysIff(Performed(t, SetRole(role, codes)), rest, role);
  }
}
