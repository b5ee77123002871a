/** The catalog the apps display: rows read from the `temples` table, mapped to `Temple`
    records with defaults for missing columns, and merged with the bundled catalog by id
    (`src/App.tsx` and `app/index.tsx`). */
module Catalog {
  import opened Options
  import opened Seqs
  import opened Temples

  /** `r.coordinates`: `{ lat, lng }`, either of which may be missing. */
  datatype Coordinates = Coordinates(lat: Option<real>, lng: Option<real>)

  /** `r.location`: the stored location object; any part may be missing. */
  datatype RemoteLocation = RemoteLocation(latitude: Option<real>, longitude: Option<real>, address: Option<Bilingual>)

  datatype RemoteTimings = RemoteTimings(morning: Option<string>, evening: Option<string>, pujaTimings: Option<seq<string>>)

  /** A row of the `temples` table as the client receives it. `None` is a column that is
      `null` or absent; objects and arrays are always truthy when present. */
  datatype RemoteRow = RemoteRow(
    id: string,
    name: Option<Bilingual>,
    deity: Option<Bilingual>,
    district: Option<string>,
    state: Option<string>,
    coordinates: Option<Coordinates>,
    location: Option<RemoteLocation>,
    description: Option<Bilingual>,
    timings: Option<RemoteTimings>,
    images: Option<seq<string>>,
    imageUrl: Option<string>,
    contactInfo: Option<Contact>,
    features: Option<seq<string>>,
    isOpen: Option<bool>,
    popularity: Option<int>,
    templeType: Option<string>)

  /** `a?.b ?? c?.d ?? 0` for a coordinate. */
  function FirstCoordinate(a: Option<real>, b: Option<real>): (r: real)
    ensures a.Some? ==> r == a.value
    ensures a.None? && b.Some? ==> r == b.value
    ensures a.None? && b.None? ==> r == 0.0
  {
    a.GetOr(b.GetOr(0.0))
  }

  function Latitude(r: RemoteRow): real
  {
    FirstCoordinate(if r.coordinates.Some? then r.coordinates.value.lat else None,
                    if r.location.Some? then r.location.value.latitude else None)
  }

  function Longitude(r: RemoteRow): real
  {
    FirstCoordinate(if r.coordinates.Some? then r.coordinates.value.lng else None,
                    if r.location.Some? then r.location.value.longitude else None)
  }

  /** `r.images || (r.image_url ? [r.image_url] : [])`. */
  function RowImages(r: RemoteRow): (imgs: seq<string>)
    ensures r.images.Some? ==> imgs == r.images.value
    ensures r.images.None? && r.imageUrl.Some? && r.imageUrl.value != "" ==> imgs == [r.imageUrl.value]
    ensures r.images.None? && (r.imageUrl.None? || r.imageUrl.value == "") ==> imgs == []
  {
    match r.images
    case Some(imgs) => imgs
    case None => if r.imageUrl.Some? && r.imageUrl.value != "" then [r.imageUrl.value] else []
  }

  /** The row-to-`Temple` mapping of both apps. Objects and text fall back with `||` (a
      missing object, or an empty text, takes the default), the open flag and the rating with
      `??` (only a missing value takes the default). Festivals and history are never read. */
  function MapRemoteRow(r: RemoteRow): (t: Temple)
    ensures t.id == r.id
    ensures t.name == r.name.GetOr(Blank) && t.deity == r.deity.GetOr(Blank)
      && t.description == r.description.GetOr(Blank)
    ensures t.state == OrString(r.state, "TS") && t.templeType == OrString(r.templeType, "Ancient")
    ensures t.festivals == [] && t.history == Blank
    ensures t.isOpen == (r.isOpen != Some(false))
    ensures r.popularity.Some? ==> t.popularity == r.popularity.value
    ensures r.popularity.None? ==> t.popularity == 0
    ensures t.district == OrString(r.district, "")
    ensures t.location.latitude
      == if r.coordinates.Some? && r.coordinates.value.lat.Some? then r.coordinates.value.lat.value
         else if r.location.Some? && r.location.value.latitude.Some? then r.location.value.latitude.value
         else 0.0
    ensures t.location.longitude
      == if r.coordinates.Some? && r.coordinates.value.lng.Some? then r.coordinates.value.lng.value
         else if r.location.Some? && r.location.value.longitude.Some? then r.location.value.longitude.value
         else 0.0
    ensures t.location.address == if r.location.Some? then r.location.value.address.GetOr(Blank) else Blank
    ensures r.timings.None? ==> t.timings == Timings("", "", [])
    ensures r.timings.Some? ==>
      && t.timings.morning == OrString(r.timings.value.morning, "")
      && t.timings.evening == OrString(r.timings.value.evening, "")
      && t.timings.pujaTimings == r.timings.value.pujaTimings.GetOr([])
    ensures t.images == RowImages(r)
    ensures t.contact == r.contactInfo.GetOr(NoContact) && t.features == r.features.GetOr([])
  {
    var timings := r.timings.GetOr(RemoteTimings(None, None, None));
    Temple(
      r.id,
      r.name.GetOr(Blank),
      r.deity.GetOr(Blank),
      OrString(r.district, ""),
      OrString(r.state, "TS"),
      Location(Latitude(r), Longitude(r),
               if r.location.Some? then r.location.value.address.GetOr(Blank) else Blank),
      r.description.GetOr(Blank),
      Blank,
      Timings(OrString(timings.morning, ""), OrString(timings.evening, ""), timings.pujaTimings.GetOr([])),
      [],
      RowImages(r),
      r.contactInfo.GetOr(NoContact),
      r.features.GetOr([]),
      r.isOpen.GetOr(true),
      r.popularity.GetOr(0),
      OrString(r.templeType, "Ancient"))
  }

  /** A stored `is_open = false` and `popularity = 0` survive the mapping: `??`, unlike `||`,
      only replaces missing values. */
  lemma StoredFalsyValuesKept(r: RemoteRow)
    requires r.isOpen == Some(false) && r.popularity == Some(0)
    ensures !MapRemoteRow(r).isOpen && MapRemoteRow(r).popularity == 0
  {
  }

  /** The ids of a list of temples, in order. */
  function Ids(ts: seq<Temple>): (r: seq<string>)
    ensures |r| == |ts|
    ensures forall i | 0 <= i < |ts| :: r[i] == ts[i].id
  {
    seq(|ts|, i requires 0 <= i < |ts| => ts[i].id)
  }

  lemma IdsAppend(a: seq<Temple>, b: seq<Temple>)
    ensures Ids(a + b) == Ids(a) + Ids(b)
  {
  }

  /** The position of the first occurrence of `x` in `s`. */
  function IndexOf(s: seq<string>, x: string): (i: nat)
    requires x in s
    ensures i < |s| && s[i] == x
    ensures forall j | 0 <= j < i :: s[j] != x
  {
    if s[0] == x then 0 else 1 + IndexOf(s[1..], x)
  }

  /** The last temple of `ts` carrying `id`. */
  function LastWithId(ts: seq<Temple>, id: string): (r: Option<Temple>)
    ensures r.Some? <==> id in Ids(ts)
    ensures r.Some? ==> r.value in ts && r.value.id == id
    decreases |ts|
  {
    if |ts| == 0 then None
    else if ts[|ts| - 1].id == id then Some(ts[|ts| - 1])
    else
      var r := LastWithId(ts[..|ts| - 1], id);
      assert Ids(ts) == Ids(ts[..|ts| - 1]) + [ts[|ts| - 1].id];
      r
  }

  /** The first temple of `ts` carrying `id`. */
  function FirstWithId(ts: seq<Temple>, id: string): (r: Option<Temple>)
    ensures r.Some? <==> id in Ids(ts)
    ensures r.Some? ==> r.value in ts && r.value.id == id
    decreases |ts|
  {
    if |ts| == 0 then None
    else
      assert Ids(ts) == Ids(ts[..|ts| - 1]) + [ts[|ts| - 1].id];
      var r := FirstWithId(ts[..|ts| - 1], id);
      if r.Some? then r
      else if ts[|ts| - 1].id == id then Some(ts[|ts| - 1])
      else None
  }

  /** `byId.set(t.id, t)` on an insertion-ordered map: a known id keeps its position and
      takes the new value, a new id goes last. */
  function SetById(m: seq<Temple>, t: Temple): (r: seq<Temple>)
  {
    if t.id in Ids(m) then m[IndexOf(Ids(m), t.id) := t] else m + [t]
  }

  /** `for (const t of ts) byId.set(t.id, t)`. */
  function SetAll(m: seq<Temple>, ts: seq<Temple>): seq<Temple>
    decreases |ts|
  {
    if |ts| == 0 then m else SetById(SetAll(m, ts[..|ts| - 1]), ts[|ts| - 1])
  }

  /** `for (const t of ts) if (!byId.has(t.id)) byId.set(t.id, t)`. */
  function AddMissing(m: seq<Temple>, ts: seq<Temple>): seq<Temple>
    decreases |ts|
  {
    if |ts| == 0 then m
    else
      var p := AddMissing(m, ts[..|ts| - 1]);
      if ts[|ts| - 1].id in Ids(p) then p else p + [ts[|ts| - 1]]
  }

  /** `allTemples`: the remote rows first, then the bundled temples whose id no remote row has,
      as `Array.from(byId.values())`. */
  function MergeById(remote: seq<Temple>, local: seq<Temple>): seq<Temple>
  {
    AddMissing(SetAll([], remote), local)
  }

  lemma SetByIdIds(m: seq<Temple>, t: Temple)
    ensures Ids(SetById(m, t)) == if t.id in Ids(m) then Ids(m) else Ids(m) + [t.id]
  {
  }

  /** Setting a value replaces the element with that id and leaves the others alone. */
  lemma SetByIdValues(m: seq<Temple>, t: Temple)
    requires NoDuplicates(Ids(m))
    ensures var r := SetById(m, t);
      forall k | 0 <= k < |r| :: if r[k].id == t.id then r[k] == t else k < |m| && r[k] == m[k]
  {
  }

  /** After the remote loop the map holds each remote id once, in order of first occurrence,
      with the value of the last row carrying it. */
  lemma SetAllFacts(ts: seq<Temple>)
    ensures var d := SetAll([], ts);
      && Ids(d) == Dedup(Ids(ts))
      && forall k | 0 <= k < |d| :: LastWithId(ts, d[k].id) == Some(d[k])
  {
    SetAllIds(ts);
    SetAllValues(ts);
  }

  lemma {:induction false} SetAllIds(ts: seq<Temple>)
    ensures Ids(SetAll([], ts)) == Dedup(Ids(ts))
    decreases |ts|
  {
    if |ts| > 0 {
      var init := ts[..|ts| - 1];
      var t := ts[|ts| - 1];
      SetAllIds(init);
      var p := SetAll([], init);
      SetByIdIds(p, t);
      var ids := Ids(ts);
      assert ids[..|ts| - 1] == Ids(init) && ids[|ts| - 1] == t.id;
      assert Dedup(ids) == if t.id in Ids(p) then Ids(p) else Ids(p) + [t.id];
      assert SetAll([], ts) == SetById(p, t);
    }
  }

  lemma {:induction false} SetAllValues(ts: seq<Temple>)
    ensures forall k | 0 <= k < |SetAll([], ts)| :: LastWithId(ts, SetAll([], ts)[k].id) == Some(SetAll([], ts)[k])
    decreases |ts|
  {
    if |ts| > 0 {
      var init := ts[..|ts| - 1];
      var t := ts[|ts| - 1];
      SetAllValues(init);
      SetAllIds(init);
      var p := SetAll([], init);
      DedupFacts(Ids(init));
      SetByIdValues(p, t);
      var d := SetAll([], ts);
      assert d == SetById(p, t);
      forall k | 0 <= k < |d| ensures LastWithId(ts, d[k].id) == Some(d[k]) {
        if d[k].id != t.id {
          assert d[k] == p[k];
          assert LastWithId(ts, d[k].id) == LastWithId(init, d[k].id);
        }
      }
    }
  }

  /** The local loop appends, in order, each local temple whose id is not yet in the map and
      keeps everything already there. */
  lemma {:induction false} AddMissingIds(m: seq<Temple>, ts: seq<Temple>, pre: seq<string>)
    requires Ids(m) == Dedup(pre)
    ensures Ids(AddMissing(m, ts)) == Dedup(pre + Ids(ts))
    decreases |ts|
  {
    if |ts| > 0 {
      var init := ts[..|ts| - 1];
      var t := ts[|ts| - 1];
      AddMissingIds(m, init, pre);
      assert Ids(ts) == Ids(init) + [t.id];
      assert pre + Ids(ts) == (pre + Ids(init)) + [t.id];
      assert (pre + Ids(ts))[..|pre + Ids(ts)| - 1] == pre + Ids(init);
    } else {
      assert pre + Ids(ts) == pre;
    }
  }

  lemma {:induction false} AddMissingPrefix(m: seq<Temple>, ts: seq<Temple>)
    ensures |AddMissing(m, ts)| >= |m| && AddMissing(m, ts)[..|m|] == m
    decreases |ts|
  {
    if |ts| > 0 {
      AddMissingPrefix(m, ts[..|ts| - 1]);
    }
  }

  lemma {:induction false} AddMissingNew(m: seq<Temple>, ts: seq<Temple>, pre: seq<string>)
    requires Ids(m) == Dedup(pre)
    ensures var r := AddMissing(m, ts);
      forall k | |m| <= k < |r| :: r[k].id !in pre && FirstWithId(ts, r[k].id) == Some(r[k])
    decreases |ts|
  {
    if |ts| > 0 {
      var init := ts[..|ts| - 1];
      var t := ts[|ts| - 1];
      AddMissingNew(m, init, pre);
      AddMissingIds(m, init, pre);
      var p := AddMissing(m, init);
      DedupFacts(pre + Ids(init));
      assert Ids(ts) == Ids(init) + [t.id];
      var r := AddMissing(m, ts);
      forall k | |m| <= k < |r| ensures r[k].id !in pre && FirstWithId(ts, r[k].id) == Some(r[k]) {
        if k < |p| {
          assert r[k] == p[k];
          assert FirstWithId(init, r[k].id).Some?;
        } else {
          assert r[k] == t && t.id !in Ids(p);
          assert t.id !in pre + Ids(init);
          assert t.id !in Ids(init);
        }
      }
    }
  }

  /** The merged catalog: its ids are the remote ids and then the local ids, each once, in
      order of first occurrence; a remote id shows the last remote row with it, any other id
      the first local temple with it. */
  lemma MergeByIdFacts(remote: seq<Temple>, local: seq<Temple>)
    ensures var r := MergeById(remote, local);
      && NoDuplicates(Ids(r))
      && Ids(r) == Dedup(Ids(remote) + Ids(local))
      && forall k | 0 <= k < |r| ::
           if r[k].id in Ids(remote) then LastWithId(remote, r[k].id) == Some(r[k])
           else FirstWithId(local, r[k].id) == Some(r[k])
  {
    var d := SetAll([], remote);
    SetAllFacts(remote);
    AddMissingIds(d, local, Ids(remote));
    AddMissingPrefix(d, local);
    AddMissingNew(d, local, Ids(remote));
    var r := MergeById(remote, local);
    DedupFacts(Ids(remote) + Ids(local));
    DedupFacts(Ids(remote));
    forall k | 0 <= k < |r|
      ensures if r[k].id in Ids(remote) then LastWithId(remote, r[k].id) == Some(r[k])
              else FirstWithId(local, r[k].id) == Some(r[k])
    {
      if k < |d| {
        assert r[k] == d[k];
        assert Ids(d)[k] == d[k].id;
      }
    }
  }

  /** Every remote row and every bundled temple has its id in the merge; a bundled temple whose
      id no remote row has, and whose id is not repeated locally, is in the merge unchanged. */
  lemma MergeByIdKeeps(remote: seq<Temple>, local: seq<Temple>)
    ensures var r := MergeById(remote, local);
      && (forall i | 0 <= i < |remote| :: remote[i].id in Ids(r))
      && (forall i | 0 <= i < |local| :: local[i].id in Ids(r))
      && (NoDuplicates(Ids(local)) ==>
            forall i | 0 <= i < |local| && local[i].id !in Ids(remote) :: local[i] in r)
  {
    MergeHasAllIds(remote, local);
    if NoDuplicates(Ids(local)) {
      MergeKeepsLocal(remote, local);
    }
  }

  lemma MergeHasAllIds(remote: seq<Temple>, local: seq<Temple>)
    ensures var r := MergeById(remote, local);
      && (forall i | 0 <= i < |remote| :: remote[i].id in Ids(r))
      && (forall i | 0 <= i < |local| :: local[i].id in Ids(r))
  {
    var r := MergeById(remote, local);
    var all := Ids(remote) + Ids(local);
    MergeByIdFacts(remote, local);
    DedupFacts(all);
    forall i | 0 <= i < |remote| ensures remote[i].id in Ids(r) {
      assert all[i] == remote[i].id;
    }
    forall i | 0 <= i < |local| ensures local[i].id in Ids(r) {
      assert all[|remote| + i] == local[i].id;
    }
  }

  lemma MergeKeepsLocal(remote: seq<Temple>, local: seq<Temple>)
    requires NoDuplicates(Ids(local))
    ensures forall i | 0 <= i < |local| && local[i].id !in Ids(remote) :: local[i] in MergeById(remote, local)
  {
    var r := MergeById(remote, local);
    MergeHasAllIds(remote, local);
    MergeByIdFacts(remote, local);
    forall i | 0 <= i < |local| && local[i].id !in Ids(remote) ensures local[i] in r {
      assert local[i].id in Ids(r);
      var k := IndexOf(Ids(r), local[i].id);
      FirstIsOnly(local, i);
    }
  }

  /** With distinct ids, the first temple carrying an id is the only one. */
  lemma {:induction false} FirstIsOnly(ts: seq<Temple>, i: nat)
    requires NoDuplicates(Ids(ts)) && i < |ts|
    ensures FirstWithId(ts, ts[i].id) == Some(ts[i])
    decreases |ts|
  {
    var init := ts[..|ts| - 1];
    var ids := Ids(ts);
    assert Ids(init) == ids[..|ts| - 1];
    if i == |ts| - 1 {
      assert ts[i].id !in Ids(init) by {
        forall j | 0 <= j < |init| ensures Ids(init)[j] != ts[i].id {
          assert ids[j] != ids[i];
        }
      }
    } else {
      assert init[i] == ts[i];
      FirstIsOnly(init, i);
    }
  }
}
