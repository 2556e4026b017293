/** Purchase orders that may be placed before their supplier has signed up. */
module Orders {
  import opened Wrappers
  import Text

  type Id = string

  /** Supplier profiles are numbered as they are made. */
  type ProfileId = nat

  /** An absent email is the empty string. */
  datatype User = User(id: Id, email: string, isSupplier: bool)

  datatype Status = Submitted | InTransit

  datatype Request = Request(supplier: Option<ProfileId>, email: Option<string>)

  /** `asked` is the request an order was made from; it is never changed. */
  datatype Order = Order(asked: Request, supplier: Option<ProfileId>, tag: Option<string>, status: Status)

  datatype Desk = Desk(users: seq<User>, profiles: map<Id, ProfileId>, nextProfile: nat, orders: map<Id, Order>)

  // ---------------------------------------------------------------- steps

  /** The email an order is stamped with: trimmed, lower-cased, and not empty. */
  function Tag(r: Request): Option<string> {
    if r.email.None? then None
    else
      var e := Text.Lower(Text.Trim(r.email.value));
      if e == "" then None else Some(e)
  }

  function FindSupplier(users: seq<User>, email: string): (found: Option<User>)
    ensures found.Some? ==> found.value in users && found.value.isSupplier && found.value.email == email
    ensures found.None? ==> forall u :: u in users ==> !(u.isSupplier && u.email == email)
  {
    if |users| == 0 then None
    else if users[0].isSupplier && users[0].email == email then Some(users[0])
    else FindSupplier(users[1..], email)
  }

  function FindUser(users: seq<User>, id: Id): (found: Option<User>)
    ensures found.Some? ==> found.value in users && found.value.id == id
    ensures found.None? ==> forall u :: u in users ==> u.id != id
  {
    if |users| == 0 then None
    else if users[0].id == id then Some(users[0])
    else FindUser(users[1..], id)
  }

  function WithProfile(d: Desk, user: Id): (r: Desk)
    ensures user in r.profiles
  {
    if user in d.profiles then d
    else d.(profiles := d.profiles[user := d.nextProfile], nextProfile := d.nextProfile + 1)
  }

  /** The supplier a request resolves to, making the supplier's profile if it is missing. */
  function Resolved(d: Desk, r: Request): (Desk, Option<ProfileId>) {
    if r.supplier.Some? then (d, r.supplier)
    else match Tag(r)
         case None => (d, None)
         case Some(email) =>
           match FindSupplier(d.users, email)
           case None => (d, None)
           case Some(u) =>
             var d' := WithProfile(d, u.id);
             (d', Some(d'.profiles[u.id]))
  }

  /** A clash of order ids fails the insert; a profile made on the way stays. */
  function Create(d: Desk, order: Id, r: Request): Desk {
    var (d', supplier) := Resolved(d, r);
    if order in d'.orders then d'
    else d'.(orders := d'.orders[order := Order(r, supplier, Tag(r), Submitted)])
  }

  predicate IsOrphan(o: Order, email: string) {
    o.supplier == None && o.tag == Some(email)
  }

  function Claimed(orders: map<Id, Order>, email: string, profile: ProfileId): map<Id, Order> {
    map k | k in orders :: if IsOrphan(orders[k], email) then orders[k].(supplier := Some(profile)) else orders[k]
  }

  /** A supplier's dashboard load: heal the profile, claim orphans, list what is bound to it. */
  function Load(d: Desk, user: Id): (Desk, set<Id>) {
    var u := FindUser(d.users, user);
    if user !in d.profiles && (u.None? || !u.value.isSupplier) then (d, {})
    else
      var d1 := WithProfile(d, user);
      var profile := d1.profiles[user];
      var email := if u.Some? then Text.Lower(u.value.email) else "";
      var d2 := if email == "" then d1 else d1.(orders := Claimed(d1.orders, email, profile));
      (d2, set k | k in d2.orders && d2.orders[k].supplier == Some(profile))
  }

  function Dispatch(d: Desk, order: Id): Desk {
    if order !in d.orders then d
    else d.(orders := d.orders[order := d.orders[order].(status := InTransit)])
  }

  /** One account for each email and role. */
  function Register(d: Desk, u: User, withProfile: bool): Desk {
    if FindUser(d.users, u.id).Some? || (u.isSupplier && FindSupplier(d.users, u.email).Some?) then d
    else
      var d' := d.(users := d.users + [u]);
      if u.isSupplier && withProfile then WithProfile(d', u.id) else d'
  }

  class OrderDesk {
    var users: seq<User>
    var profiles: map<Id, ProfileId>
    var nextProfile: nat
    var orders: map<Id, Order>

    function Value(): Desk
      reads this
    {
      Desk(users, profiles, nextProfile, orders)
    }

    constructor ()
      ensures Value() == EMPTY
    {
      users, profiles, nextProfile, orders := [], map[], 0, map[];
    }

    method CreateOrder(order: Id, r: Request) returns (ok: bool)
      modifies this
      ensures Value() == Create(old(Value()), order, r)
      ensures ok <==> order !in old(orders)
    {
      var supplier := r.supplier;
      var tag := Tag(r);
      if supplier.None? && tag.Some? {
        var u := FindSupplier(users, tag.value);
        if u.Some? {
          if u.value.id !in profiles {
            profiles := profiles[u.value.id := nextProfile];
            nextProfile := nextProfile + 1;
          }
          supplier := Some(profiles[u.value.id]);
        }
      }
      if order in orders {
        return false;
      }
      orders := orders[order := Order(r, supplier, tag, Submitted)];
      return true;
    }

    method ListForSupplierUser(user: Id) returns (listed: set<Id>)
      modifies this
      ensures (Value(), listed) == Load(old(Value()), user)
    {
      var u := FindUser(users, user);
      if user !in profiles {
        if u.None? || !u.value.isSupplier {
          return {};
        }
        profiles := profiles[user := nextProfile];
        nextProfile := nextProfile + 1;
      }
      var profile := profiles[user];
      var email := if u.Some? then Text.Lower(u.value.email) else "";
      if email != "" {
        orders := Claimed(orders, email, profile);
      }
      listed := set k | k in orders && orders[k].supplier == Some(profile);
    }

    method DispatchOrder(order: Id) returns (ok: bool)
      modifies this
      ensures Value() == Dispatch(old(Value()), order)
      ensures ok <==> order in old(orders)
    {
      if order !in orders {
        return false;
      }
      orders := orders[order := orders[order].(status := InTransit)];
      return true;
    }
  }

  // ---------------------------------------------------------------- what a call leaves

  /** The email of a request, as it is compared: trimmed and in lower case; none if blank. */
  ghost predicate StampedWith(tag: Option<string>, r: Request) {
    match r.email
    case None => tag == None
    case Some(raw) =>
      var e := Text.Lower(Text.Trim(raw));
      tag == if |e| == 0 then None else Some(e)
  }

  ghost predicate SupplierAccount(d: Desk, u: User, email: string) {
    u in d.users && u.isSupplier && u.email == email
  }

  /** A new order keeps what was asked, is stamped, and waits as submitted. It is bound at once to
      the profile named or, naming none, to that of the supplier account with the email, which
      gets a profile if it had none; with no such account it waits unbound. */
  lemma CreateLeaves(d: Desk, order: Id, r: Request)
    requires order !in d.orders
    ensures var after := Create(d, order, r);
            && order in after.orders && after.orders == d.orders[order := after.orders[order]] && after.users == d.users
            && var o := after.orders[order];
               && o.asked == r && o.status == Submitted && StampedWith(o.tag, r)
               && (r.supplier.Some? ==> o.supplier == r.supplier && after.profiles == d.profiles)
               && (r.supplier.None? && o.tag.Some? && (exists u :: SupplierAccount(d, u, o.tag.value)) ==>
                     exists u :: SupplierAccount(d, u, o.tag.value) && u.id in after.profiles && o.supplier == Some(after.profiles[u.id]))
               && (r.supplier.None? && (o.tag.None? || forall u :: !SupplierAccount(d, u, o.tag.value)) ==>
                     o.supplier == None && after.profiles == d.profiles)
               && (forall k :: k in d.profiles ==> k in after.profiles && after.profiles[k] == d.profiles[k])
  {
    if r.supplier.None? && Tag(r).Some? {
      var u := FindSupplier(d.users, Tag(r).value);
      if u.Some? {
        assert SupplierAccount(d, u.value, Tag(r).value);
      }
    }
  }

  /** A load by a user with no profile who is no supplier lists and changes nothing; one by a user
      with a profile but no email lists what is bound to the profile and claims nothing. */
  lemma LoadLeaves(d: Desk, user: Id)
    ensures user !in d.profiles && (forall u :: u in d.users && u.id == user ==> !u.isSupplier) ==> Load(d, user) == (d, {})
    ensures user in d.profiles && (forall u :: u in d.users && u.id == user ==> u.email == "") ==>
              Load(d, user) == (d, set k | k in d.orders && d.orders[k].supplier == Some(d.profiles[user]))
  {
    var u := FindUser(d.users, user);
    if u.Some? {
      assert u.value in d.users;
    }
  }

  /** Dispatching puts one order in transit and changes nothing else; an unknown one nothing. */
  lemma DispatchLeaves(d: Desk, order: Id)
    ensures Dispatch(d, order) ==
            if order in d.orders then d.(orders := d.orders[order := d.orders[order].(status := InTransit)]) else d
  {
  }

  /** An account opens unless its id, or its email as a supplier, is taken; a supplier who asks
      for one gets a profile of a number not used before. */
  lemma RegisterLeaves(d: Desk, u: User, withProfile: bool)
    ensures var after := Register(d, u, withProfile);
            if (exists v :: v in d.users && v.id == u.id) || (u.isSupplier && exists v :: SupplierAccount(d, v, u.email))
            then after == d
            else
              && after.users == d.users + [u] && after.orders == d.orders
              && (u.isSupplier && withProfile && u.id !in d.profiles ==>
                    after.profiles == d.profiles[u.id := d.nextProfile] && after.nextProfile == d.nextProfile + 1)
              && (!(u.isSupplier && withProfile) || u.id in d.profiles ==> after.profiles == d.profiles)
  {
    var (byId, byEmail) := (FindUser(d.users, u.id), FindSupplier(d.users, u.email));
    if byId.Some? {
      assert byId.value in d.users;
    }
    if byEmail.Some? {
      assert SupplierAccount(d, byEmail.value, u.email);
    }
  }

  // ---------------------------------------------------------------- runs

  datatype Command =
    | CreateCmd(order: Id, request: Request)
    | LoadCmd(user: Id)
    | DispatchCmd(order: Id)
    | RegisterCmd(account: User, withProfile: bool)

  function Performed(d: Desk, c: Command): Desk {
    match c
    case CreateCmd(order, r) => Create(d, order, r)
    case LoadCmd(user) => Load(d, user).0
    case DispatchCmd(order) => Dispatch(d, order)
    case RegisterCmd(u, withProfile) => Register(d, u, withProfile)
  }

  const EMPTY := Desk([], map[], 0, map[])

  function Run(cs: seq<Command>): Desk {
    if |cs| == 0 then EMPTY else Performed(Run(cs[..|cs| - 1]), cs[|cs| - 1])
  }

  lemma RunStep(cs: seq<Command>, c: Command)
    ensures Run([]) == Desk([], map[], 0, map[])
    ensures c.CreateCmd? ==> Run(cs + [c]) == Create(Run(cs), c.order, c.request)
    ensures c.LoadCmd? ==> Run(cs + [c]) == Load(Run(cs), c.user).0
    ensures c.DispatchCmd? ==> Run(cs + [c]) == Dispatch(Run(cs), c.order)
    ensures c.RegisterCmd? ==> Run(cs + [c]) == Register(Run(cs), c.account, c.withProfile)
  {
    assert (cs + [c])[..|cs|] == cs;
  }

  /** Accounts are opened under lower-case emails. */
  ghost predicate LowerCaseAccounts(cs: seq<Command>) {
    forall c :: c in cs && c.RegisterCmd? ==> c.account.email == Text.Lower(c.account.email)
  }

  // ---------------------------------------------------------------- invariant

  ghost predicate OwnsEmail(d: Desk, profile: ProfileId, email: string) {
    exists u :: u in d.users && u.isSupplier && u.email == email && u.id in d.profiles && d.profiles[u.id] == profile
  }

  /** An order is bound as asked, or by email to the supplier account with that email. */
  ghost predicate WellBound(d: Desk, o: Order) {
    && o.tag == Tag(o.asked)
    && (o.asked.supplier.Some? ==> o.supplier == o.asked.supplier)
    && (o.asked.supplier.None? && o.supplier.Some? ==> o.tag.Some? && OwnsEmail(d, o.supplier.value, o.tag.value))
  }

  ghost predicate Accounts(d: Desk) {
    && (forall u :: u in d.users ==> u.email == Text.Lower(u.email))
    && (forall u, v :: u in d.users && v in d.users && u.id == v.id ==> u == v)
    && (forall u, v :: u in d.users && v in d.users && u.isSupplier && v.isSupplier && u.email == v.email ==> u == v)
  }

  ghost predicate Profiles(d: Desk) {
    && (forall k :: k in d.profiles ==> d.profiles[k] < d.nextProfile)
    && (forall k, l :: k in d.profiles && l in d.profiles && d.profiles[k] == d.profiles[l] ==> k == l)
    && (forall k :: k in d.profiles ==> HasSupplierAccount(d, k))
  }

  ghost predicate HasSupplierAccount(d: Desk, k: Id) {
    exists u :: u in d.users && u.id == k && u.isSupplier
  }

  ghost predicate Sound(d: Desk) {
    Accounts(d) && Profiles(d) && forall k :: k in d.orders ==> WellBound(d, d.orders[k])
  }

  /** Nobody loses an account or a profile. */
  ghost predicate Extends(d: Desk, e: Desk) {
    && (forall u :: u in d.users ==> u in e.users)
    && (forall k :: k in d.profiles ==> k in e.profiles && e.profiles[k] == d.profiles[k])
  }

  lemma BoundStays(d: Desk, e: Desk, o: Order)
    requires Extends(d, e) && WellBound(d, o)
    ensures WellBound(e, o)
  {
  }

  lemma AllStayBound(d: Desk, e: Desk)
    requires Extends(d, e) && e.orders == d.orders
    requires forall k :: k in d.orders ==> WellBound(d, d.orders[k])
    ensures forall k :: k in e.orders ==> WellBound(e, e.orders[k])
  {
  }

  lemma ProfileKeepsProfiles(d: Desk, u: User)
    requires Profiles(d) && u in d.users && u.isSupplier
    ensures Profiles(WithProfile(d, u.id))
  {
  }

  lemma ProfileKeepsSound(d: Desk, u: User)
    requires Sound(d) && u in d.users && u.isSupplier
    ensures Sound(WithProfile(d, u.id)) && Extends(d, WithProfile(d, u.id))
    ensures OwnsEmail(WithProfile(d, u.id), WithProfile(d, u.id).profiles[u.id], u.email)
  {
    ProfileKeepsProfiles(d, u);
    AllStayBound(d, WithProfile(d, u.id));
    assert u in WithProfile(d, u.id).users;
  }

  lemma ResolvedIsSound(d: Desk, r: Request)
    requires Sound(d)
    ensures var (e, supplier) := Resolved(d, r);
            Sound(e) && Extends(d, e) && e.orders == d.orders && WellBound(e, Order(r, supplier, Tag(r), Submitted))
  {
    if r.supplier.None? && Tag(r).Some? {
      var u := FindSupplier(d.users, Tag(r).value);
      if u.Some? {
        var e := WithProfile(d, u.value.id);
        ProfileKeepsSound(d, u.value);
        assert Resolved(d, r) == (e, Some(e.profiles[u.value.id]));
      }
    }
  }

  lemma CreateKeepsSound(d: Desk, order: Id, r: Request)
    requires Sound(d)
    ensures Sound(Create(d, order, r)) && Extends(d, Create(d, order, r))
  {
    ResolvedIsSound(d, r);
    var (d', supplier) := Resolved(d, r);
    if order !in d.orders {
      OrderFits(d', order, Order(r, supplier, Tag(r), Submitted));
    }
  }

  lemma OrderFits(d: Desk, k: Id, o: Order)
    requires Sound(d) && WellBound(d, o)
    ensures Sound(d.(orders := d.orders[k := o]))
  {
  }

  lemma LoadKeepsSound(d: Desk, user: Id)
    requires Sound(d)
    ensures Sound(Load(d, user).0) && Extends(d, Load(d, user).0)
  {
    if user in d.profiles || (FindUser(d.users, user).Some? && FindUser(d.users, user).value.isSupplier) {
      var u := LoaderIsSupplier(d, user);
      ProfileKeepsSound(d, u);
      ClaimKeepsSound(WithProfile(d, user), u);
    }
  }

  lemma ClaimKeepsSound(d: Desk, u: User)
    requires Sound(d) && u in d.users && u.isSupplier && u.id in d.profiles
    ensures Sound(d.(orders := Claimed(d.orders, Text.Lower(u.email), d.profiles[u.id])))
  {
    var e := d.(orders := Claimed(d.orders, Text.Lower(u.email), d.profiles[u.id]));
    assert Text.Lower(u.email) == u.email;
    assert OwnsEmail(e, d.profiles[u.id], u.email);
    forall k | k in e.orders
      ensures WellBound(e, e.orders[k])
    {
      BoundStays(d, e, d.orders[k]);
    }
  }

  lemma LoaderIsSupplier(d: Desk, user: Id) returns (u: User)
    requires Sound(d) && (user in d.profiles || (FindUser(d.users, user).Some? && FindUser(d.users, user).value.isSupplier))
    ensures u in d.users && u.id == user && u.isSupplier && FindUser(d.users, user) == Some(u)
  {
    if user in d.profiles {
      assert HasSupplierAccount(d, user);
      u :| u in d.users && u.id == user && u.isSupplier;
    } else {
      u := FindUser(d.users, user).value;
    }
  }

  lemma DispatchKeepsSound(d: Desk, order: Id)
    requires Sound(d)
    ensures Sound(Dispatch(d, order)) && Extends(d, Dispatch(d, order))
  {
    var e := Dispatch(d, order);
    forall k | k in e.orders
      ensures WellBound(e, e.orders[k])
    {
      BoundStays(d, e, d.orders[k]);
    }
  }

  lemma RegisterKeepsSound(d: Desk, u: User, withProfile: bool)
    requires Sound(d) && u.email == Text.Lower(u.email)
    ensures Sound(Register(d, u, withProfile)) && Extends(d, Register(d, u, withProfile))
  {
    if FindUser(d.users, u.id).None? && !(u.isSupplier && FindSupplier(d.users, u.email).Some?) {
      var e := d.(users := d.users + [u]);
      AccountOpens(d, u);
      assert u in e.users;
      if u.isSupplier && withProfile {
        ProfileKeepsSound(e, u);
      }
    }
  }

  lemma AccountOpens(d: Desk, u: User)
    requires Sound(d) && u.email == Text.Lower(u.email)
    requires FindUser(d.users, u.id).None? && !(u.isSupplier && FindSupplier(d.users, u.email).Some?)
    ensures var e := d.(users := d.users + [u]); Sound(e) && Extends(d, e)
  {
    var e := d.(users := d.users + [u]);
    forall k | k in e.profiles
      ensures HasSupplierAccount(e, k)
    {
      assert HasSupplierAccount(d, k);
      var v :| v in d.users && v.id == k && v.isSupplier;
      assert v in e.users;
    }
    AllStayBound(d, e);
  }

  lemma {:induction false} RunIsSound(cs: seq<Command>)
    requires LowerCaseAccounts(cs)
    ensures Sound(Run(cs))
  {
    if |cs| > 0 {
      var n := |cs| - 1;
      RunIsSound(cs[..n]);
      assert cs[n] in cs;
      match cs[n]
      case CreateCmd(order, r) => CreateKeepsSound(Run(cs[..n]), order, r);
      case LoadCmd(user) => LoadKeepsSound(Run(cs[..n]), user);
      case DispatchCmd(order) => DispatchKeepsSound(Run(cs[..n]), order);
      case RegisterCmd(u, withProfile) => RegisterKeepsSound(Run(cs[..n]), u, withProfile);
    }
  }

  // ---------------------------------------------------------------- confluence

  /** The order was sent to the profile, or to no named supplier at the email. */
  ghost predicate SentTo(asked: Request, profile: ProfileId, email: string) {
    if asked.supplier.Some? then asked.supplier.value == profile else Tag(asked) == Some(email)
  }

  /** Whatever the interleaving of orders, dispatches, registrations and earlier loads, a
      supplier's next load lists exactly the orders sent to the supplier's profile and those
      sent, without naming a supplier, to the supplier's email. */
  lemma LoadListsWhatWasSent(cs: seq<Command>, u: User)
    requires LowerCaseAccounts(cs)
    requires u in Run(cs).users && u.isSupplier && u.email != ""
    ensures var (after, listed) := Load(Run(cs), u.id);
            && u.id in after.profiles
            && forall k :: k in listed <==>
                 k in Run(cs).orders && SentTo(Run(cs).orders[k].asked, after.profiles[u.id], u.email)
  {
    RunIsSound(cs);
    var d := Run(cs);
    LoadsAs(d, u);
    forall k | k in d.orders
      ensures k in Load(d, u.id).1 <==> SentTo(d.orders[k].asked, Load(d, u.id).0.profiles[u.id], u.email)
    {
      ListedIffSent(d, u, k);
    }
  }

  /** A supplier with an email takes the full path of a load. */
  lemma LoadsAs(d: Desk, u: User)
    requires Sound(d) && u in d.users && u.isSupplier && u.email != ""
    ensures var d1 := WithProfile(d, u.id);
            var after := d1.(orders := Claimed(d.orders, u.email, d1.profiles[u.id]));
            && Load(d, u.id).0 == after
            && Load(d, u.id).1 == set k | k in after.orders && after.orders[k].supplier == Some(d1.profiles[u.id])
  {
  }

  lemma ListedIffSent(d: Desk, u: User, k: Id)
    requires Sound(d) && u in d.users && u.isSupplier && u.email != "" && k in d.orders
    ensures var (after, listed) := Load(d, u.id);
            k in listed <==> SentTo(d.orders[k].asked, after.profiles[u.id], u.email)
  {
    LoadKeepsSound(d, u.id);
    LoadsAs(d, u);
    var after := Load(d, u.id).0;
    assert u in after.users;
    BoundIffSent(after, u, after.orders[k]);
  }

  /** Once no orphan is left for the email, an order is bound to the profile exactly when it was
      sent to it. */
  lemma BoundIffSent(d: Desk, u: User, o: Order)
    requires Sound(d) && WellBound(d, o) && !IsOrphan(o, u.email)
    requires u in d.users && u.isSupplier && u.id in d.profiles
    ensures o.supplier == Some(d.profiles[u.id]) <==> SentTo(o.asked, d.profiles[u.id], u.email)
  {
  }

  /** An order, once bound, stays with its supplier, and what was asked is never rewritten. */
  lemma StepKeepsBinding(d: Desk, c: Command, k: Id)
    requires k in d.orders
    ensures var e := Performed(d, c);
            && k in e.orders && e.orders[k].asked == d.orders[k].asked
            && (d.orders[k].supplier.Some? ==> e.orders[k].supplier == d.orders[k].supplier)
  {
  }

  lemma {:induction false} BoundOrdersNeverMove(cs: seq<Command>, more: seq<Command>, k: Id)
    requires k in Run(cs).orders
    ensures var now := Run(cs + more);
            && k in now.orders && now.orders[k].asked == Run(cs).orders[k].asked
            && (Run(cs).orders[k].supplier.Some? ==> now.orders[k].supplier == Run(cs).orders[k].supplier)
  {
    if |more| == 0 {
      assert cs + more == cs;
    } else {
      var n := |more| - 1;
      BoundOrdersNeverMove(cs, more[..n], k);
      assert (cs + more)[..|cs + more| - 1] == cs + more[..n];
      StepKeepsBinding(Run(cs + more[..n]), more[n], k);
    }
  }
}
