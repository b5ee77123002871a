/** The in-memory admin back end (`src/lib/admin-api.ts`): two mock administrator accounts,
    and temple and festival records kept in two lists. Every mutating call first demands a
    signed-in administrator. Delays are dropped; the clock is a parameter (`now` for the
    ISO timestamps, `stamp` for `Date.now()` in generated ids). */
module AdminApi {
  import opened Options
  import opened Seqs
  import opened Decimal
  import opened Calendar
  import opened Temples

  datatype Role = Admin | SuperAdmin

  datatype AdminUser = AdminUser(id: string, email: string, role: Role, name: string, createdAt: string)

  datatype AdminTimings = AdminTimings(morning: string, evening: string)

  datatype AdminContact = AdminContact(phone: Option<string>, email: Option<string>, website: Option<string>)

  /** `TempleData`; coordinates are opaque reals. */
  datatype TempleData = TempleData(
    id: string,
    name: Bilingual,
    deity: Bilingual,
    description: Bilingual,
    district: string,
    state: string,
    templeType: string,
    lat: real,
    lng: real,
    timings: AdminTimings,
    isOpen: bool,
    imageUrl: string,
    contactInfo: AdminContact,
    facilities: seq<string>,
    createdAt: string,
    updatedAt: string)

  /** `AdminAPI`'s `Festival`. */
  datatype FestivalData = FestivalData(
    id: string,
    name: Bilingual,
    description: Bilingual,
    date: string,
    templeId: string,
    isActive: bool,
    createdAt: string,
    updatedAt: string)

  /** `Partial<Omit<TempleData, 'id' | 'created_at'>>`; `updated_at` is overwritten anyway. */
  datatype TempleUpdates = TempleUpdates(
    name: Option<Bilingual>,
    deity: Option<Bilingual>,
    description: Option<Bilingual>,
    district: Option<string>,
    state: Option<string>,
    templeType: Option<string>,
    coordinates: Option<(real, real)>,
    timings: Option<AdminTimings>,
    isOpen: Option<bool>,
    imageUrl: Option<string>,
    contactInfo: Option<AdminContact>,
    facilities: Option<seq<string>>)

  const NoTempleUpdates := TempleUpdates(None, None, None, None, None, None, None, None, None, None, None, None)

  datatype FestivalUpdates = FestivalUpdates(
    name: Option<Bilingual>,
    description: Option<Bilingual>,
    date: Option<string>,
    templeId: Option<string>,
    isActive: Option<bool>)

  /** The service's private state. */
  datatype Store = Store(admin: Option<AdminUser>, temples: seq<TempleData>, festivals: seq<FestivalData>)

  /** The outcome of a guarded call: the authentication error (thrown before any list is
      touched), or a value with the new state. */
  datatype Call<T> = AuthRequired | Ok(value: T, store: Store)

  /** One entry of `mockAdmins`. */
  datatype MockAdmin = MockAdmin(id: string, email: string, password: string, role: Role, name: string)

  const MockAdmins: seq<MockAdmin> := [
    MockAdmin("admin-1", "admin@templesanathan.com", "admin123", Admin, "Temple Admin"),
    MockAdmin("admin-2", "superadmin@templesanathan.com", "superadmin123", SuperAdmin, "Super Admin")
  ]

  const AccountCreated := "2024-01-01T00:00:00Z"

  function UserOf(m: MockAdmin): AdminUser
  {
    AdminUser(m.id, m.email, m.role, m.name, AccountCreated)
  }

  /** `adminLogin(email, password)`: the result user, with the new state. The token is left
      out. */
  function Login(s: Store, email: string, password: string): (r: (Option<AdminUser>, Store))
    ensures r.0.Some? <==> exists i | 0 <= i < |MockAdmins| :: MockAdmins[i].email == email && MockAdmins[i].password == password
    ensures r.0.Some? ==>
      && r.1 == s.(admin := r.0)
      && exists i | 0 <= i < |MockAdmins| :: r.0.value == UserOf(MockAdmins[i]) && MockAdmins[i].password == password
    ensures r.0.None? ==> r.1 == s
  {
    var a := MockAdmins[0];
    var b := MockAdmins[1];
    if a.email == email && a.password == password then (Some(UserOf(a)), s.(admin := Some(UserOf(a))))
    else if b.email == email && b.password == password then (Some(UserOf(b)), s.(admin := Some(UserOf(b))))
    else (None, s)
  }

  /** The two accounts sign in with their own passwords and roles. */
  lemma MockAccounts(s: Store)
    ensures Login(s, "admin@templesanathan.com", "admin123").0.value.role == Admin
    ensures Login(s, "superadmin@templesanathan.com", "superadmin123").0.value.role == SuperAdmin
    ensures Login(s, "admin@templesanathan.com", "superadmin123").0.None?
  {
    assert "admin@templesanathan.com" != "superadmin@templesanathan.com" by {
      assert "admin@templesanathan.com"[0] != "superadmin@templesanathan.com"[0];
    }
    assert "superadmin123" != "admin123" by {
      assert "superadmin123"[0] != "admin123"[0];
    }
  }

  /** `adminLogout()`. */
  function Logout(s: Store): (r: Store)
    ensures r.admin.None? && r.temples == s.temples && r.festivals == s.festivals
  {
    s.(admin := None)
  }

  /** `findIndex`: the first position whose key is `id`. */
  function FindIndex<T>(s: seq<T>, key: T -> string, id: string): (r: Option<nat>)
    ensures r.Some? ==> r.value < |s| && key(s[r.value]) == id && forall j | 0 <= j < r.value :: key(s[j]) != id
    ensures r.None? ==> forall j | 0 <= j < |s| :: key(s[j]) != id
    decreases |s|
  {
    if |s| == 0 then None
    else
      var init := s[..|s| - 1];
      var found := FindIndex(init, key, id);
      assert forall j | 0 <= j < |init| :: init[j] == s[j];
      if found.Some? then found
      else if key(s[|s| - 1]) == id then Some(|s| - 1)
      else None
  }

  function TempleId(t: TempleData): string { t.id }

  function FestivalId(f: FestivalData): string { f.id }

  /** `getTemple(id)`: the first temple with that id. */
  function GetTemple(s: Store, id: string): (r: Option<TempleData>)
    ensures r.Some? ==>
      exists i | 0 <= i < |s.temples| ::
        r.value == s.temples[i] && r.value.id == id && forall j | 0 <= j < i :: s.temples[j].id != id
    ensures r.None? <==> forall j | 0 <= j < |s.temples| :: s.temples[j].id != id
  {
    match FindIndex(s.temples, TempleId, id)
    case Some(i) => Some(s.temples[i])
    case None => None
  }

  /** `createTemple(data)`: appended with a generated id and fresh timestamps. */
  function CreateTemple(s: Store, data: TempleData, now: string, stamp: nat): (r: Call<TempleData>)
    ensures s.admin.None? <==> r.AuthRequired?
    ensures r.Ok? ==>
      && r.value == data.(id := "temple-" + NatToString(stamp), createdAt := now, updatedAt := now)
      && r.store == s.(temples := s.temples + [r.value])
  {
    if s.admin.None? then AuthRequired
    else
      var t := data.(id := "temple-" + NatToString(stamp), createdAt := now, updatedAt := now);
      Ok(t, s.(temples := s.temples + [t]))
  }

  /** `{...temple, ...updates, updated_at: now}`. */
  function OverlayTemple(t: TempleData, u: TempleUpdates, now: string): (r: TempleData)
    ensures r.id == t.id && r.createdAt == t.createdAt && r.updatedAt == now
    ensures r.name == u.name.GetOr(t.name) && r.deity == u.deity.GetOr(t.deity)
    ensures r.description == u.description.GetOr(t.description)
    ensures r.district == u.district.GetOr(t.district) && r.state == u.state.GetOr(t.state)
    ensures r.templeType == u.templeType.GetOr(t.templeType)
    ensures (r.lat, r.lng) == u.coordinates.GetOr((t.lat, t.lng))
    ensures r.timings == u.timings.GetOr(t.timings) && r.isOpen == u.isOpen.GetOr(t.isOpen)
    ensures r.imageUrl == u.imageUrl.GetOr(t.imageUrl) && r.contactInfo == u.contactInfo.GetOr(t.contactInfo)
    ensures r.facilities == u.facilities.GetOr(t.facilities)
  {
    var c := u.coordinates.GetOr((t.lat, t.lng));
    t.(name := u.name.GetOr(t.name),
       deity := u.deity.GetOr(t.deity),
       description := u.description.GetOr(t.description),
       district := u.district.GetOr(t.district),
       state := u.state.GetOr(t.state),
       templeType := u.templeType.GetOr(t.templeType),
       lat := c.0,
       lng := c.1,
       timings := u.timings.GetOr(t.timings),
       isOpen := u.isOpen.GetOr(t.isOpen),
       imageUrl := u.imageUrl.GetOr(t.imageUrl),
       contactInfo := u.contactInfo.GetOr(t.contactInfo),
       facilities := u.facilities.GetOr(t.facilities),
       updatedAt := now)
  }

  /** An empty update only refreshes the timestamp. */
  lemma OverlayNothing(t: TempleData, now: string)
    ensures OverlayTemple(t, NoTempleUpdates, now) == t.(updatedAt := now)
  {
  }

  /** `updateTemple(id, updates)`: the first temple with that id is overlaid, or `null`. */
  function UpdateTemple(s: Store, id: string, u: TempleUpdates, now: string): (r: Call<Option<TempleData>>)
    ensures s.admin.None? <==> r.AuthRequired?
    ensures r.Ok? ==> r.store.admin == s.admin && r.store.festivals == s.festivals && |r.store.temples| == |s.temples|
    ensures r.Ok? && r.value.None? ==> r.store == s && forall j | 0 <= j < |s.temples| :: s.temples[j].id != id
    ensures r.Ok? && r.value.Some? ==>
      exists i | 0 <= i < |s.temples| ::
        && s.temples[i].id == id
        && (forall j | 0 <= j < i :: s.temples[j].id != id)
        && r.value.value == OverlayTemple(s.temples[i], u, now)
        && r.store.temples == s.temples[i := r.value.value]
  {
    if s.admin.None? then AuthRequired
    else match FindIndex(s.temples, TempleId, id)
      case None => Ok(None, s)
      case Some(i) =>
        var t := OverlayTemple(s.temples[i], u, now);
        Ok(Some(t), s.(temples := s.temples[i := t]))
  }

  /** Other temples are left as they were by an update. */
  lemma UpdateTempleKeepsOthers(s: Store, id: string, u: TempleUpdates, now: string)
    requires UpdateTemple(s, id, u, now).Ok?
    ensures var after := UpdateTemple(s, id, u, now).store.temples;
      forall j | 0 <= j < |s.temples| && s.temples[j].id != id :: after[j] == s.temples[j]
  {
  }

  /** `deleteTemple(id)`: `false` when no temple has the id; otherwise the first such temple is
      spliced out and every festival of that id removed. */
  function DeleteTemple(s: Store, id: string): (r: Call<bool>)
    ensures s.admin.None? <==> r.AuthRequired?
    ensures r.Ok? ==> r.store.admin == s.admin
    ensures r.Ok? && !r.value ==> r.store == s && forall j | 0 <= j < |s.temples| :: s.temples[j].id != id
    ensures r.Ok? && r.value ==>
      && r.store.festivals == Filter(s.festivals, (f: FestivalData) => f.templeId != id)
      && exists i | 0 <= i < |s.temples| ::
           && s.temples[i].id == id
           && (forall j | 0 <= j < i :: s.temples[j].id != id)
           && r.store.temples == s.temples[..i] + s.temples[i + 1..]
  {
    if s.admin.None? then AuthRequired
    else match FindIndex(s.temples, TempleId, id)
      case None => Ok(false, s)
      case Some(i) =>
        Ok(true, s.(festivals := Filter(s.festivals, (f: FestivalData) => f.templeId != id),
                    temples := s.temples[..i] + s.temples[i + 1..]))
  }

  /** Every festival names a temple that exists. */
  predicate FestivalsReferenceTemples(s: Store)
  {
    forall k | 0 <= k < |s.festivals| :: exists j | 0 <= j < |s.temples| :: s.temples[j].id == s.festivals[k].templeId
  }

  predicate UniqueTempleIds(s: Store)
  {
    forall i, j | 0 <= i < j < |s.temples| :: s.temples[i].id != s.temples[j].id
  }

  /** Removing the temple at `i` keeps every temple whose id differs from it. */
  lemma RemovalKeepsOtherIds(temples: seq<TempleData>, i: nat, tid: string)
    requires i < |temples| && tid != temples[i].id
    requires exists j | 0 <= j < |temples| :: temples[j].id == tid
    ensures var rest := temples[..i] + temples[i + 1..];
      exists j | 0 <= j < |rest| :: rest[j].id == tid
  {
    var rest := temples[..i] + temples[i + 1..];
    var j :| 0 <= j < |temples| && temples[j].id == tid;
    if j < i {
      assert rest[j] == temples[j];
    } else {
      assert rest[j - 1] == temples[j];
    }
  }

  /** The cascade leaves no festival of the deleted temple behind: every remaining festival
      still names an existing temple. */
  lemma DeleteKeepsReferences(s: Store, id: string)
    requires s.admin.Some? && FestivalsReferenceTemples(s)
    ensures FestivalsReferenceTemples(DeleteTemple(s, id).store)
  {
    var r := DeleteTemple(s, id);
    if r.value {
      var i :| 0 <= i < |s.temples| && s.temples[i].id == id && r.store.temples == s.temples[..i] + s.temples[i + 1..];
      var after := r.store;
      forall k | 0 <= k < |after.festivals|
        ensures exists j | 0 <= j < |after.temples| :: after.temples[j].id == after.festivals[k].templeId
      {
        var f := after.festivals[k];
        assert f in s.festivals && f.templeId != id;
        var k0 :| 0 <= k0 < |s.festivals| && s.festivals[k0] == f;
        RemovalKeepsOtherIds(s.temples, i, f.templeId);
      }
      assert forall k | 0 <= k < |after.festivals| :: exists j | 0 <= j < |after.temples| :: after.temples[j].id == after.festivals[k].templeId;
      assert FestivalsReferenceTemples(after);
    }
  }

  /** `updateTempleImage(id, url)` and `updateTempleTimings(id, timings)`: the first temple
      with the id gets the new value and timestamp; `false` when there is none. */
  function SetTempleField(s: Store, id: string, u: TempleUpdates, now: string): (r: Call<bool>)
    ensures s.admin.None? <==> r.AuthRequired?
    ensures r.Ok? ==> (r.value <==> exists j | 0 <= j < |s.temples| :: s.temples[j].id == id)
    ensures r.Ok? ==> r.store == UpdateTemple(s, id, u, now).store
  {
    match UpdateTemple(s, id, u, now)
    case AuthRequired => AuthRequired
    case Ok(t, after) => Ok(t.Some?, after)
  }

  function UpdateTempleImage(s: Store, id: string, imageUrl: string, now: string): (r: Call<bool>)
    ensures s.admin.None? <==> r.AuthRequired?
    ensures r.Ok? ==> (r.value <==> exists j | 0 <= j < |s.temples| :: s.temples[j].id == id)
    ensures r.Ok? && !r.value ==> r.store == s
    ensures r.Ok? && r.value ==>
      exists i | 0 <= i < |s.temples| ::
        && s.temples[i].id == id
        && (forall j | 0 <= j < i :: s.temples[j].id != id)
        && r.store == s.(temples := s.temples[i := s.temples[i].(imageUrl := imageUrl, updatedAt := now)])
  {
    SetTempleField(s, id, NoTempleUpdates.(imageUrl := Some(imageUrl)), now)
  }

  function UpdateTempleTimings(s: Store, id: string, timings: AdminTimings, now: string): (r: Call<bool>)
    ensures s.admin.None? <==> r.AuthRequired?
    ensures r.Ok? ==> (r.value <==> exists j | 0 <= j < |s.temples| :: s.temples[j].id == id)
    ensures r.Ok? && !r.value ==> r.store == s
    ensures r.Ok? && r.value ==>
      exists i | 0 <= i < |s.temples| ::
        && s.temples[i].id == id
        && (forall j | 0 <= j < i :: s.temples[j].id != id)
        && r.store == s.(temples := s.temples[i := s.temples[i].(timings := timings, updatedAt := now)])
  {
    SetTempleField(s, id, NoTempleUpdates.(timings := Some(timings)), now)
  }

  /** `getFestivals(templeId?)`: the temple's festivals when a non-empty id is given,
      otherwise all of them. Reading needs no sign-in. */
  function GetFestivals(s: Store, templeId: Option<string>): (r: seq<FestivalData>)
    ensures templeId.None? || templeId == Some("") ==> r == s.festivals
    ensures templeId.Some? && templeId.value != "" ==>
      && IsSubsequence(r, s.festivals)
      && (forall f | f in r :: f.templeId == templeId.value)
      && forall k | 0 <= k < |s.festivals| :: s.festivals[k] in r <==> s.festivals[k].templeId == templeId.value
  {
    if templeId.None? || templeId.value == "" then s.festivals
    else
      var p := (f: FestivalData) => f.templeId == templeId.value;
      FilterIsSubsequence(s.festivals, p);
      Filter(s.festivals, p)
  }

  /** `getFestival(id)`. */
  function GetFestival(s: Store, id: string): (r: Option<FestivalData>)
    ensures r.Some? ==>
      exists i | 0 <= i < |s.festivals| ::
        r.value == s.festivals[i] && r.value.id == id && forall j | 0 <= j < i :: s.festivals[j].id != id
    ensures r.None? <==> forall j | 0 <= j < |s.festivals| :: s.festivals[j].id != id
  {
    match FindIndex(s.festivals, FestivalId, id)
    case Some(i) => Some(s.festivals[i])
    case None => None
  }

  /** `createFestival(data)`: appended with a generated id; the temple id is not checked. */
  function CreateFestival(s: Store, data: FestivalData, now: string, stamp: nat): (r: Call<FestivalData>)
    ensures s.admin.None? <==> r.AuthRequired?
    ensures r.Ok? ==>
      && r.value == data.(id := "festival-" + NatToString(stamp), createdAt := now, updatedAt := now)
      && r.store == s.(festivals := s.festivals + [r.value])
  {
    if s.admin.None? then AuthRequired
    else
      var f := data.(id := "festival-" + NatToString(stamp), createdAt := now, updatedAt := now);
      Ok(f, s.(festivals := s.festivals + [f]))
  }

  /** A created festival shows up last in its own temple's list, and no other temple's list
      changes. */
  lemma CreatedFestivalListed(s: Store, data: FestivalData, now: string, stamp: nat, other: string)
    requires s.admin.Some? && data.templeId != "" && other != "" && other != data.templeId
    ensures var r := CreateFestival(s, data, now, stamp);
      && GetFestivals(r.store, Some(data.templeId)) == GetFestivals(s, Some(data.templeId)) + [r.value]
      && GetFestivals(r.store, Some(other)) == GetFestivals(s, Some(other))
  {
    var r := CreateFestival(s, data, now, stamp);
    FilterSnoc(s.festivals, r.value, (f: FestivalData) => f.templeId == data.templeId);
    FilterSnoc(s.festivals, r.value, (f: FestivalData) => f.templeId == other);
  }

  /** A festival may be created for a temple that does not exist. */
  lemma CreateFestivalUnchecked(s: Store, data: FestivalData, now: string, stamp: nat)
    requires s.admin.Some? && forall j | 0 <= j < |s.temples| :: s.temples[j].id != data.templeId
    ensures !FestivalsReferenceTemples(CreateFestival(s, data, now, stamp).store)
  {
    var after := CreateFestival(s, data, now, stamp).store;
    assert after.festivals[|after.festivals| - 1].templeId == data.templeId;
  }

  function OverlayFestival(f: FestivalData, u: FestivalUpdates, now: string): (r: FestivalData)
    ensures r.id == f.id && r.createdAt == f.createdAt && r.updatedAt == now
    ensures r.name == u.name.GetOr(f.name) && r.description == u.description.GetOr(f.description)
    ensures r.date == u.date.GetOr(f.date)
    ensures r.isActive == u.isActive.GetOr(f.isActive) && r.templeId == u.templeId.GetOr(f.templeId)
  {
    f.(name := u.name.GetOr(f.name),
       description := u.description.GetOr(f.description),
       date := u.date.GetOr(f.date),
       templeId := u.templeId.GetOr(f.templeId),
       isActive := u.isActive.GetOr(f.isActive),
       updatedAt := now)
  }

  /** `updateFestival(id, updates)`. */
  function UpdateFestival(s: Store, id: string, u: FestivalUpdates, now: string): (r: Call<Option<FestivalData>>)
    ensures s.admin.None? <==> r.AuthRequired?
    ensures r.Ok? ==> r.store.admin == s.admin && r.store.temples == s.temples && |r.store.festivals| == |s.festivals|
    ensures r.Ok? && r.value.None? ==> r.store == s && forall j | 0 <= j < |s.festivals| :: s.festivals[j].id != id
    ensures r.Ok? && r.value.Some? ==>
      exists i | 0 <= i < |s.festivals| ::
        && s.festivals[i].id == id
        && (forall j | 0 <= j < i :: s.festivals[j].id != id)
        && r.value.value == OverlayFestival(s.festivals[i], u, now)
        && r.store.festivals == s.festivals[i := r.value.value]
  {
    if s.admin.None? then AuthRequired
    else match FindIndex(s.festivals, FestivalId, id)
      case None => Ok(None, s)
      case Some(i) =>
        var f := OverlayFestival(s.festivals[i], u, now);
        Ok(Some(f), s.(festivals := s.festivals[i := f]))
  }

  /** `deleteFestival(id)`: the first festival with the id is spliced out. */
  function DeleteFestival(s: Store, id: string): (r: Call<bool>)
    ensures s.admin.None? <==> r.AuthRequired?
    ensures r.Ok? && !r.value ==> r.store == s
    ensures r.Ok? ==> (r.value <==> exists j | 0 <= j < |s.festivals| :: s.festivals[j].id == id)
    ensures r.Ok? && r.value ==>
      && r.store.temples == s.temples && r.store.admin == s.admin
      && exists i | 0 <= i < |s.festivals| ::
           && s.festivals[i].id == id
           && (forall j | 0 <= j < i :: s.festivals[j].id != id)
           && r.store.festivals == s.festivals[..i] + s.festivals[i + 1..]
  {
    if s.admin.None? then AuthRequired
    else match FindIndex(s.festivals, FestivalId, id)
      case None => Ok(false, s)
      case Some(i) => Ok(true, s.(festivals := s.festivals[..i] + s.festivals[i + 1..]))
  }

  /** `toggleFestivalStatus(id)`: the first festival with the id has `is_active` flipped. */
  function ToggleFestivalStatus(s: Store, id: string, now: string): (r: Call<bool>)
    ensures s.admin.None? <==> r.AuthRequired?
    ensures r.Ok? ==> r.store.temples == s.temples && |r.store.festivals| == |s.festivals|
    ensures r.Ok? ==> (r.value <==> exists j | 0 <= j < |s.festivals| :: s.festivals[j].id == id)
    ensures r.Ok? && !r.value ==> r.store == s
    ensures r.Ok? && r.value ==>
      exists i | 0 <= i < |s.festivals| ::
        && s.festivals[i].id == id
        && (forall j | 0 <= j < i :: s.festivals[j].id != id)
        && r.store == s.(festivals := s.festivals[i := s.festivals[i].(isActive := !s.festivals[i].isActive, updatedAt := now)])
  {
    if s.admin.None? then AuthRequired
    else match FindIndex(s.festivals, FestivalId, id)
      case None => Ok(false, s)
      case Some(i) =>
        var f := s.festivals[i];
        Ok(true, s.(festivals := s.festivals[i := f.(isActive := !f.isActive, updatedAt := now)]))
  }

  /** Toggling twice restores every festival's flag; only the timestamp moves. */
  lemma ToggleTwice(s: Store, id: string, now: string)
    requires s.admin.Some?
    ensures var once := ToggleFestivalStatus(s, id, now).store;
      var twice := ToggleFestivalStatus(once, id, now).store;
      && |twice.festivals| == |s.festivals|
      && forall k | 0 <= k < |s.festivals| :: twice.festivals[k].(updatedAt := s.festivals[k].updatedAt) == s.festivals[k]
  {
    var once := ToggleFestivalStatus(s, id, now).store;
    var i := FindIndex(s.festivals, FestivalId, id);
    if i.Some? {
      assert forall k | 0 <= k < |s.festivals| :: once.festivals[k].id == s.festivals[k].id;
      assert FindIndex(once.festivals, FestivalId, id) == i by {
        var j := FindIndex(once.festivals, FestivalId, id);
        assert FestivalId(once.festivals[i.value]) == id;
        if j.Some? {
          assert !(j.value < i.value) && !(i.value < j.value);
        }
      }
    }
  }

  /** The dashboard figures. `today` is the current UTC calendar day. */
  datatype Stats = Stats(
    totalTemples: nat,
    totalFestivals: nat,
    activeTemples: nat,
    upcomingFestivals: nat,
    templesByType: map<string, nat>)

  /** `f.is_active && new Date(f.date) > new Date()`: a date-only string denotes UTC midnight,
      which lies after the current instant exactly when its day is after today. */
  predicate UpcomingActive(f: FestivalData, today: Date)
  {
    f.isActive && match ParseIsoDate(f.date)
      case Some(d) => Before(today, d)
      case None => false
  }

  /** The `reduce` that counts temples per type. */
  function ByType(temples: seq<TempleData>): (m: map<string, nat>)
    ensures forall k | k in m :: m[k] > 0
    ensures forall k :: k in m <==> exists j | 0 <= j < |temples| :: temples[j].templeType == k
    decreases |temples|
  {
    if |temples| == 0 then map[]
    else
      var init := temples[..|temples| - 1];
      var acc := ByType(init);
      var ty := temples[|temples| - 1].templeType;
      assert forall j | 0 <= j < |init| :: init[j] == temples[j];
      acc[ty := (if ty in acc then acc[ty] else 0) + 1]
  }

  function TypeIs(k: string): TempleData -> bool
  {
    (t: TempleData) => t.templeType == k
  }

  /** Each type's count is the number of temples of that type. */
  lemma {:induction false} ByTypeCounts(temples: seq<TempleData>)
    ensures forall k | k in ByType(temples) :: ByType(temples)[k] == Count(temples, TypeIs(k))
    ensures forall k | k !in ByType(temples) :: Count(temples, TypeIs(k)) == 0
    decreases |temples|
  {
    if |temples| > 0 {
      var init := temples[..|temples| - 1];
      var last := temples[|temples| - 1];
      ByTypeCounts(init);
      assert init + [last] == temples;
      forall k
        ensures Count(temples, TypeIs(k)) == Count(init, TypeIs(k)) + (if last.templeType == k then 1 else 0)
      {
        CountSnoc(init, last, TypeIs(k));
      }
    }
  }

  /** `getStats()`. */
  function GetStats(s: Store, today: Date): (r: Stats)
    ensures r.totalTemples == |s.temples| && r.totalFestivals == |s.festivals|
    ensures r.activeTemples <= r.totalTemples && r.upcomingFestivals <= r.totalFestivals
  {
    Stats(|s.temples|, |s.festivals|,
          Count(s.temples, (t: TempleData) => t.isOpen),
          Count(s.festivals, (f: FestivalData) => UpcomingActive(f, today)),
          ByType(s.temples))
  }

  /** The sum of a map's values. */
  ghost function SumValues(m: map<string, nat>): nat
    decreases |m|
  {
    if m == map[] then 0
    else
      var k :| k in m;
      m[k] + SumValues(m - {k})
  }

  /** The sum does not depend on which key is taken out first. */
  lemma {:induction false} SumValuesAt(m: map<string, nat>, k: string)
    requires k in m
    ensures SumValues(m) == m[k] + SumValues(m - {k})
    decreases |m|
  {
    var j :| j in m && SumValues(m) == m[j] + SumValues(m - {j});
    if j != k {
      SumValuesAt(m - {j}, k);
      SumValuesAt(m - {k}, j);
      assert m - {j} - {k} == m - {k} - {j};
    }
  }

  lemma SumValuesBump(m: map<string, nat>, k: string)
    ensures SumValues(m[k := (if k in m then m[k] else 0) + 1]) == SumValues(m) + 1
  {
    var m2 := m[k := (if k in m then m[k] else 0) + 1];
    SumValuesAt(m2, k);
    assert m2 - {k} == m - {k};
    if k in m {
      SumValuesAt(m, k);
    } else {
      assert m - {k} == m;
    }
  }

  /** The per-type counts add up to the number of temples. */
  lemma {:induction false} ByTypeTotal(temples: seq<TempleData>)
    ensures SumValues(ByType(temples)) == |temples|
    decreases |temples|
  {
    if |temples| > 0 {
      var init := temples[..|temples| - 1];
      ByTypeTotal(init);
      SumValuesBump(ByType(init), temples[|temples| - 1].templeType);
    }
  }

  /** The active count is the number of open temples, and the type counts sum to the total. */
  lemma StatsFacts(s: Store, today: Date)
    ensures var r := GetStats(s, today);
      && SumValues(r.templesByType) == r.totalTemples
      && r.activeTemples == |Filter(s.temples, (t: TempleData) => t.isOpen)|
    ensures GetStats(s, today).upcomingFestivals
      == |Filter(s.festivals, (f: FestivalData) =>
            f.isActive && ParseIsoDate(f.date).Some? && Before(today, ParseIsoDate(f.date).value))|
    ensures var m := GetStats(s, today).templesByType;
      && (forall k | k in m :: m[k] == Count(s.temples, TypeIs(k)))
      && (forall k | k !in m :: Count(s.temples, TypeIs(k)) == 0)
  {
    ByTypeTotal(s.temples);
    ByTypeCounts(s.temples);
    FilterSame(s.festivals, (f: FestivalData) => UpcomingActive(f, today),
      (f: FestivalData) => f.isActive && ParseIsoDate(f.date).Some? && Before(today, ParseIsoDate(f.date).value));
  }

  /** `bulkUpdateTempleStatus(ids, isOpen)`, the `forEach` loop: every listed temple gets the
      flag and the timestamp; the count of those is returned. */
  method BulkUpdateTempleStatus(s: Store, ids: seq<string>, isOpen: bool, now: string) returns (r: Call<nat>)
    ensures s.admin.None? <==> r.AuthRequired?
    ensures r.Ok? ==> r.store.admin == s.admin && r.store.festivals == s.festivals
    ensures r.Ok? ==> |r.store.temples| == |s.temples|
    ensures r.Ok? ==> forall j | 0 <= j < |s.temples| ::
      r.store.temples[j] == if s.temples[j].id in ids then s.temples[j].(isOpen := isOpen, updatedAt := now) else s.temples[j]
    ensures r.Ok? ==> r.value == Count(s.temples, (t: TempleData) => t.id in ids)
  {
    if s.admin.None? {
      return AuthRequired;
    }
    var listed := (t: TempleData) => t.id in ids;
    var temples := s.temples;
    var count := 0;
    var j := 0;
    while j < |temples|
      invariant 0 <= j <= |temples| && |temples| == |s.temples|
      invariant forall k | j <= k < |temples| :: temples[k] == s.temples[k]
      invariant forall k | 0 <= k < j ::
        temples[k] == if s.temples[k].id in ids then s.temples[k].(isOpen := isOpen, updatedAt := now) else s.temples[k]
      invariant count == Count(s.temples[..j], listed)
    {
      assert s.temples[..j + 1] == s.temples[..j] + [s.temples[j]];
      CountSnoc(s.temples[..j], s.temples[j], listed);
      if temples[j].id in ids {
        temples := temples[j := temples[j].(isOpen := isOpen, updatedAt := now)];
        count := count + 1;
      }
      j := j + 1;
    }
    assert s.temples[..j] == s.temples;
    return Ok(count, s.(temples := temples));
  }

  /** `bulkDeleteFestivals(ids)`: the listed festivals are filtered out and the difference in
      length is returned. */
  function BulkDeleteFestivals(s: Store, ids: seq<string>): (r: Call<int>)
    ensures s.admin.None? <==> r.AuthRequired?
    ensures r.Ok? ==> r.store == s.(festivals := Filter(s.festivals, Unlisted(ids)))
    ensures r.Ok? ==> r.value == |s.festivals| - |r.store.festivals|
  {
    if s.admin.None? then AuthRequired
    else
      var kept := Filter(s.festivals, Unlisted(ids));
      Ok(|s.festivals| - |kept|, s.(festivals := kept))
  }

  function Listed(ids: seq<string>): FestivalData -> bool
  {
    (f: FestivalData) => f.id in ids
  }

  function Unlisted(ids: seq<string>): FestivalData -> bool
  {
    (f: FestivalData) => f.id !in ids
  }

  /** The number returned is the number of listed festivals: non-negative, and zero exactly when
      none is listed. */
  lemma BulkDeleteCount(s: Store, ids: seq<string>)
    requires s.admin.Some?
    ensures var r := BulkDeleteFestivals(s, ids);
      && r.value == Count(s.festivals, Listed(ids))
      && (r.value == 0 <==> forall k | 0 <= k < |s.festivals| :: s.festivals[k].id !in ids)
  {
    FilterComplement(s.festivals, Listed(ids), Unlisted(ids));
    FilterEmpty(s.festivals, Listed(ids));
  }

  /** After a sign-out every guarded call is refused and changes nothing. */
  lemma LogoutGuards(s: Store, id: string, u: TempleUpdates, now: string, ids: seq<string>)
    ensures var out := Logout(s);
      && DeleteTemple(out, id).AuthRequired?
      && UpdateTemple(out, id, u, now).AuthRequired?
      && ToggleFestivalStatus(out, id, now).AuthRequired?
      && BulkDeleteFestivals(out, ids).AuthRequired?
  {
  }
}
