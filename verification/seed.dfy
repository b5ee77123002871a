/** The seeding loop of `scripts/seed-csv-temples.ts`: each imported temple is skipped when
    its normalized English name is already known, otherwise inserted; a successful insert
    makes its name known and queues the temple's festivals. The store's answers are
    parameters. */
module Seed {
  import opened Options
  import opened Seqs
  import opened JsString
  import opened Temples
  import opened Catalog

  /** `name.toLowerCase().trim()`. */
  function NormName(name: string): string
  {
    Trim(Lower(name))
  }

  function Norm(t: Temple): string
  {
    NormName(t.name.english)
  }

  /** The names already stored; a row without an English name contributes `undefined`, which
      no temple's name equals, so it is left out. */
  function ExistingNames(stored: seq<Option<string>>): (names: set<string>)
    ensures forall n | n in stored && n.Some? :: NormName(n.value) in names
    ensures forall x | x in names :: exists i | 0 <= i < |stored| :: stored[i].Some? && x == NormName(stored[i].value)
  {
    set n | n in stored && n.Some? :: NormName(n.value)
  }

  /** How the store answers the insert of the temple at each position, and the id it gives. */
  datatype Store = Store(insertOk: nat -> bool, newId: nat -> string)

  /** What became of one temple. */
  datatype Fate = Duplicate | Inserted | Failed

  /** One row of the `festivals` insert. */
  datatype FestivalRow = FestivalRow(name: Bilingual, description: Bilingual, date: string, templeId: string, isActive: bool)

  /** `temple.festivals.map(f => ({ …, temple_id, is_active: true }))`. */
  function FestivalRows(festivals: seq<Festival>, templeId: string): (rows: seq<FestivalRow>)
    ensures |rows| == |festivals|
    ensures forall i | 0 <= i < |rows| ::
      rows[i] == FestivalRow(festivals[i].name, festivals[i].description, festivals[i].date, templeId, true)
  {
    seq(|festivals|, i requires 0 <= i < |festivals| =>
      FestivalRow(festivals[i].name, festivals[i].description, festivals[i].date, templeId, true))
  }

  /** `templeRecord`: the columns written for a temple; the id is the one the store assigns.
      The history is not written. */
  function SeedRecord(t: Temple, id: string): (r: RemoteRow)
    ensures r.id == id && r.name == Some(t.name) && r.deity == Some(t.deity)
    ensures r.images == Some(t.images) && r.isOpen == Some(t.isOpen) && r.popularity == Some(t.popularity)
    ensures r.imageUrl.Some? <==> |t.images| > 0 && t.images[0] != ""
  {
    var p := t.location;
    RemoteRow(
      id,
      Some(t.name),
      Some(t.deity),
      Some(t.district),
      Some(t.state),
      Some(Coordinates(Some(p.latitude), Some(p.longitude))),
      Some(RemoteLocation(Some(p.latitude), Some(p.longitude), Some(p.address))),
      Some(t.description),
      Some(RemoteTimings(Some(t.timings.morning), Some(t.timings.evening), Some(t.timings.pujaTimings))),
      Some(t.images),
      if |t.images| > 0 && t.images[0] != "" then Some(t.images[0]) else None,
      Some(t.contact),
      Some(t.features),
      Some(t.isOpen),
      Some(t.popularity),
      Some(t.templeType))
  }

  /** Reading a seeded row back gives the temple again under its new id, with the parts that
      are not stored (history, festivals) empty. */
  lemma SeedRecordRoundTrip(t: Temple, id: string)
    requires t.state != "" && t.templeType != ""
    ensures MapRemoteRow(SeedRecord(t, id)) == t.(id := id, history := Blank, festivals := [])
  {
  }

  /** The normalized names of a batch. */
  function Keys(temples: seq<Temple>): (keys: seq<string>)
    ensures |keys| == |temples| && forall i | 0 <= i < |temples| :: keys[i] == Norm(temples[i])
  {
    seq(|temples|, i requires 0 <= i < |temples| => Norm(temples[i]))
  }

  /** The names known after part of the loop and the fate of each temple so far. */
  datatype Tally = Tally(known: set<string>, fates: seq<Fate>)

  /** The duplicate check and insert of one temple whose normalized name is `key`. */
  function Step(st: Tally, key: string, insertOk: bool): (r: Tally)
  {
    if key in st.known then st.(fates := st.fates + [Duplicate])
    else if !insertOk then st.(fates := st.fates + [Failed])
    else Tally(st.known + {key}, st.fates + [Inserted])
  }

  /** The decisions of the loop over the names `keys`, starting from the known names
      `start`. */
  function Decide(start: set<string>, keys: seq<string>, store: Store): (r: Tally)
    ensures |r.fates| == |keys|
    decreases |keys|
  {
    if |keys| == 0 then Tally(start, [])
    else Step(Decide(start, keys[..|keys| - 1], store), keys[|keys| - 1], store.insertOk(|keys| - 1))
  }

  /** One more key is one more step of the loop. */
  lemma DecideSnoc(start: set<string>, keys: seq<string>, i: nat, store: Store)
    requires i < |keys|
    ensures Decide(start, keys[..i + 1], store) == Step(Decide(start, keys[..i], store), keys[i], store.insertOk(i))
  {
    assert keys[..i + 1][..i] == keys[..i];
  }

  /** An earlier insert of the same normalized name. */
  predicate InsertedBefore(fates: seq<Fate>, keys: seq<string>, i: nat, name: string)
    requires i <= |fates| && i <= |keys|
  {
    exists j | 0 <= j < i :: fates[j] == Inserted && keys[j] == name
  }

  lemma InsertedBeforePrefix(fates: seq<Fate>, keys: seq<string>, f: Fate, k: string, i: nat, x: string)
    requires |fates| == |keys| && i <= |keys|
    ensures InsertedBefore(fates + [f], keys + [k], i, x) <==> InsertedBefore(fates, keys, i, x)
  {
    if InsertedBefore(fates + [f], keys + [k], i, x) {
      var j :| 0 <= j < i && (fates + [f])[j] == Inserted && (keys + [k])[j] == x;
      assert fates[j] == Inserted && keys[j] == x;
    }
    if InsertedBefore(fates, keys, i, x) {
      var j :| 0 <= j < i && fates[j] == Inserted && keys[j] == x;
      assert (fates + [f])[j] == Inserted && (keys + [k])[j] == x;
    }
  }

  /** The known names are the starting ones plus the name of every inserted temple. */
  lemma {:induction false} DecideKnown(start: set<string>, keys: seq<string>, store: Store)
    ensures var r := Decide(start, keys, store);
      forall x :: x in r.known <==> x in start || InsertedBefore(r.fates, keys, |keys|, x)
    decreases |keys|
  {
    if |keys| > 0 {
      var n := |keys| - 1;
      var init := keys[..n];
      DecideKnown(start, init, store);
      var prev := Decide(start, init, store);
      var r := Decide(start, keys, store);
      assert r == Step(prev, keys[n], store.insertOk(n));
      var f := r.fates[n];
      assert r.fates == prev.fates + [f];
      assert keys == init + [keys[n]];
      forall x ensures x in r.known <==> x in start || InsertedBefore(r.fates, keys, |keys|, x) {
        InsertedBeforePrefix(prev.fates, init, f, keys[n], n, x);
        if f == Inserted && x == keys[n] {
          assert r.fates[n] == Inserted && keys[n] == x;
          assert InsertedBefore(r.fates, keys, |keys|, x);
        } else if InsertedBefore(r.fates, keys, |keys|, x) {
          var j :| 0 <= j < |keys| && r.fates[j] == Inserted && keys[j] == x;
          assert j < n;
          assert InsertedBefore(r.fates, keys, n, x);
        }
      }
    }
  }

  /** Earlier decisions never change. */
  lemma {:induction false} DecidePrefix(start: set<string>, keys: seq<string>, store: Store, i: nat)
    requires i <= |keys|
    ensures Decide(start, keys[..i], store).fates == Decide(start, keys, store).fates[..i]
    decreases |keys|
  {
    if i < |keys| {
      var n := |keys| - 1;
      assert keys[..n][..i] == keys[..i];
      DecidePrefix(start, keys[..n], store, i);
      assert Decide(start, keys[..i], store) == Decide(start, keys[..n][..i], store);
      var prev := Decide(start, keys[..n], store);
      var r := Decide(start, keys, store);
      assert r == Step(prev, keys[n], store.insertOk(n));
      assert r.fates[..n] == prev.fates;
      assert r.fates[..i] == prev.fates[..i];
    } else {
      assert keys[..i] == keys;
    }
  }

  /** A temple is skipped exactly when its name is known when it is reached, and fails
      exactly when it is new and its insert fails. */
  lemma DecideFates(start: set<string>, keys: seq<string>, store: Store)
    ensures var r := Decide(start, keys, store);
      forall i | 0 <= i < |keys| ::
        && (r.fates[i] == Duplicate <==> keys[i] in start || InsertedBefore(r.fates, keys, i, keys[i]))
        && (r.fates[i] == Failed <==> r.fates[i] != Duplicate && !store.insertOk(i))
  {
    var r := Decide(start, keys, store);
    forall i | 0 <= i < |keys|
      ensures r.fates[i] == Duplicate <==> keys[i] in start || InsertedBefore(r.fates, keys, i, keys[i])
      ensures r.fates[i] == Failed <==> r.fates[i] != Duplicate && !store.insertOk(i)
    {
      var pre := keys[..i];
      var prev := Decide(start, pre, store);
      DecideKnown(start, pre, store);
      DecidePrefix(start, keys, store, i);
      DecidePrefix(start, keys, store, i + 1);
      var next := Decide(start, keys[..i + 1], store);
      assert keys[..i + 1][..i] == pre;
      assert next == Step(prev, keys[i], store.insertOk(i));
      assert next.fates[i] == r.fates[i];
      InsertedBeforeSlice(r.fates, keys, i, keys[i]);
    }
  }

  lemma InsertedBeforeSlice(fates: seq<Fate>, keys: seq<string>, i: nat, x: string)
    requires |fates| == |keys| && i <= |keys|
    ensures InsertedBefore(fates[..i], keys[..i], i, x) <==> InsertedBefore(fates, keys, i, x)
  {
    if InsertedBefore(fates, keys, i, x) {
      var j :| 0 <= j < i && fates[j] == Inserted && keys[j] == x;
      assert fates[..i][j] == Inserted && keys[..i][j] == x;
    }
  }

  /** No two inserted temples share a normalized name, and none had a name already stored. */
  lemma InsertedNamesFresh(start: set<string>, keys: seq<string>, store: Store)
    ensures var r := Decide(start, keys, store);
      forall i | 0 <= i < |keys| && r.fates[i] == Inserted :: keys[i] !in start
    ensures var r := Decide(start, keys, store);
      forall i, j | 0 <= i < j < |keys| && r.fates[i] == Inserted && r.fates[j] == Inserted :: keys[i] != keys[j]
  {
    DecideFates(start, keys, store);
    var r := Decide(start, keys, store);
    forall i, j | 0 <= i < j < |keys| && r.fates[i] == Inserted && r.fates[j] == Inserted
      ensures keys[i] != keys[j]
    {
      if keys[i] == keys[j] {
        assert InsertedBefore(r.fates, keys, j, keys[j]);
      }
    }
  }

  function IsFate(f: Fate): Fate -> bool
  {
    (x: Fate) => x == f
  }

  /** The records inserted: one per temple whose fate is `Inserted`, with the id the store
      gave it. */
  function Records(temples: seq<Temple>, fates: seq<Fate>, store: Store): (rs: seq<RemoteRow>)
    requires |fates| == |temples|
    decreases |temples|
  {
    if |temples| == 0 then []
    else
      var n := |temples| - 1;
      Records(temples[..n], fates[..n], store)
      + (if fates[n] == Inserted then [SeedRecord(temples[n], store.newId(n))] else [])
  }

  /** The festival rows sent, in order: those of every inserted temple. */
  function FestivalRowsSent(temples: seq<Temple>, fates: seq<Fate>, store: Store): (rows: seq<FestivalRow>)
    requires |fates| == |temples|
    decreases |temples|
  {
    if |temples| == 0 then []
    else
      var n := |temples| - 1;
      FestivalRowsSent(temples[..n], fates[..n], store)
      + (if fates[n] == Inserted then FestivalRows(temples[n].festivals, store.newId(n)) else [])
  }

  /** The loop over `temples` from the stored names. */
  function Seeding(stored: seq<Option<string>>, temples: seq<Temple>, store: Store): (r: Tally)
    ensures |r.fates| == |temples|
  {
    Decide(ExistingNames(stored), Keys(temples), store)
  }

  /** One record per inserted temple. */
  lemma {:induction false} RecordsCount(temples: seq<Temple>, fates: seq<Fate>, store: Store)
    requires |fates| == |temples|
    ensures |Records(temples, fates, store)| == Count(fates, IsFate(Inserted))
    decreases |temples|
  {
    if |temples| > 0 {
      var n := |temples| - 1;
      RecordsCount(temples[..n], fates[..n], store);
      assert fates == fates[..n] + [fates[n]];
      FilterAppend(fates[..n], [fates[n]], IsFate(Inserted));
      assert [fates[n]][..0] == [];
    }
  }

  /** The temple whose store id a festival row points at was inserted. */
  predicate SentForInserted(row: FestivalRow, fates: seq<Fate>, store: Store)
  {
    exists i | 0 <= i < |fates| :: fates[i] == Inserted && row.templeId == store.newId(i)
  }

  lemma SentForInsertedLonger(row: FestivalRow, fates: seq<Fate>, f: Fate, store: Store)
    requires SentForInserted(row, fates, store)
    ensures SentForInserted(row, fates + [f], store)
  {
    var i :| 0 <= i < |fates| && fates[i] == Inserted && row.templeId == store.newId(i);
    assert (fates + [f])[i] == Inserted;
  }

  /** Every festival row is active and points at the id of an inserted temple. */
  lemma {:induction false} FestivalRowsFacts(temples: seq<Temple>, fates: seq<Fate>, store: Store)
    requires |fates| == |temples|
    ensures forall k | 0 <= k < |FestivalRowsSent(temples, fates, store)| ::
      FestivalRowsSent(temples, fates, store)[k].isActive
      && SentForInserted(FestivalRowsSent(temples, fates, store)[k], fates, store)
    decreases |temples|
  {
    if |temples| > 0 {
      var n := |temples| - 1;
      var init := temples[..n];
      FestivalRowsFacts(init, fates[..n], store);
      var prev := FestivalRowsSent(init, fates[..n], store);
      var rows := FestivalRowsSent(temples, fates, store);
      assert fates == fates[..n] + [fates[n]];
      forall k | 0 <= k < |rows| ensures rows[k].isActive && SentForInserted(rows[k], fates, store) {
        if k < |prev| {
          assert rows[k] == prev[k];
          SentForInsertedLonger(prev[k], fates[..n], fates[n], store);
        } else {
          var added := FestivalRows(temples[n].festivals, store.newId(n));
          assert rows[k] == added[k - |prev|];
          assert fates[n] == Inserted;
        }
      }
    }
  }

  /** The script's loop with its two counters and the name set. */
  method SeedLoop(stored: seq<Option<string>>, temples: seq<Temple>, store: Store)
    returns (inserted: nat, skipped: nat, names: set<string>)
    ensures var r := Seeding(stored, temples, store);
      && inserted == Count(r.fates, IsFate(Inserted))
      && skipped == Count(r.fates, IsFate(Duplicate))
      && names == r.known
  {
    var start := ExistingNames(stored);
    var keys := Keys(temples);
    names := start;
    inserted := 0;
    skipped := 0;
    var i := 0;
    while i < |temples|
      invariant 0 <= i <= |temples|
      invariant var r := Decide(start, keys[..i], store);
        && names == r.known
        && inserted == Count(r.fates, IsFate(Inserted))
        && skipped == Count(r.fates, IsFate(Duplicate))
    {
      var prev := Decide(start, keys[..i], store);
      DecideSnoc(start, keys, i, store);
      var name := NormName(temples[i].name.english);
      assert name == keys[i];
      var f := if name in names then Duplicate else if store.insertOk(i) then Inserted else Failed;
      CountSnoc(prev.fates, f, IsFate(Inserted));
      CountSnoc(prev.fates, f, IsFate(Duplicate));
      if name in names {
        skipped := skipped + 1;
      } else if store.insertOk(i) {
        inserted := inserted + 1;
        names := names + {name};
      }
      i := i + 1;
    }
    assert keys[..i] == keys;
  }

  /** The summary's two counters leave out exactly the temples whose insert failed: every
      temple of the batch is inserted, skipped or failed, and the counters cover the whole batch
      iff no insert failed. */
  lemma SeedingAccounts(stored: seq<Option<string>>, temples: seq<Temple>, store: Store)
    ensures var r := Seeding(stored, temples, store);
      Count(r.fates, IsFate(Inserted)) + Count(r.fates, IsFate(Duplicate)) + Count(r.fates, IsFate(Failed)) == |temples|
    ensures var r := Seeding(stored, temples, store);
      Count(r.fates, IsFate(Inserted)) + Count(r.fates, IsFate(Duplicate)) == |temples|
      <==> forall i | 0 <= i < |temples| :: r.fates[i] != Failed
  {
    var r := Seeding(stored, temples, store);
    FatesPartitionStep(r.fates);
    FilterEmpty(r.fates, IsFate(Failed));
  }

  lemma {:induction false} FatesPartitionStep(fates: seq<Fate>)
    ensures Count(fates, IsFate(Inserted)) + Count(fates, IsFate(Duplicate)) + Count(fates, IsFate(Failed)) == |fates|
    decreases |fates|
  {
    if |fates| > 0 {
      var n := |fates| - 1;
      FatesPartitionStep(fates[..n]);
      assert fates == fates[..n] + [fates[n]];
      FilterAppend(fates[..n], [fates[n]], IsFate(Inserted));
      FilterAppend(fates[..n], [fates[n]], IsFate(Duplicate));
      FilterAppend(fates[..n], [fates[n]], IsFate(Failed));
      assert [fates[n]][..0] == [];
    }
  }
}
