/** The feature memory repository: an in-memory map from feature name to the
    memory last saved under it. */
module MemoryStore {
  import opened Base
  import opened Dto

  datatype Store = Store(entries: map<string, FeatureMemory>)

  /** The store a fresh process starts with. */
  const Empty: Store := Store(map[])

  /** Every entry is filed under its own feature name. */
  predicate WellKeyed(st: Store) {
    forall f :: f in st.entries ==> st.entries[f].feature == f
  }

  /** `findByFeature`: the memory saved under `feature`, if any. */
  function Find(st: Store, feature: string): (r: Option<FeatureMemory>)
    ensures r.Some? <==> feature in st.entries
    ensures r.Some? ==> r.value == st.entries[feature]
  {
    if feature in st.entries then Some(st.entries[feature]) else None
  }

  /** `exists`: holds exactly when `Find` returns something. */
  function Exists(st: Store, feature: string): (b: bool)
    ensures b <==> Find(st, feature).Some?
  {
    feature in st.entries
  }

  /** `save`: upsert under the memory's own feature name; every other entry
      stays as it was. */
  function Save(st: Store, m: FeatureMemory): (r: Store)
    ensures Find(r, m.feature) == Some(m)
    ensures forall f :: f != m.feature ==> Find(r, f) == Find(st, f)
    ensures r.entries.Keys == st.entries.Keys + {m.feature}
    ensures WellKeyed(st) ==> WellKeyed(r)
  {
    Store(st.entries[m.feature := m])
  }

  /** `delete`: the entry for `feature` is gone, every other one stays. */
  function Delete(st: Store, feature: string): (r: Store)
    ensures Find(r, feature) == None
    ensures forall f :: f != feature ==> Find(r, f) == Find(st, f)
    ensures r.entries.Keys == st.entries.Keys - {feature}
    ensures WellKeyed(st) ==> WellKeyed(r)
  {
    Store(st.entries - {feature})
  }

  /** `clear`: afterwards no feature has a memory. */
  function Clear(st: Store): (r: Store)
    ensures forall f :: !Exists(r, f)
    ensures WellKeyed(r)
  {
    Empty
  }

  /** After a save the saved feature exists and is found with the saved value. */
  lemma SaveThenFind(st: Store, m: FeatureMemory)
    ensures Exists(Save(st, m), m.feature)
    ensures Find(Save(st, m), m.feature) == Some(m)
  {
  }

  /** Two saves under one key keep only the second value. */
  lemma LastWriteWins(st: Store, m1: FeatureMemory, m2: FeatureMemory)
    requires m1.feature == m2.feature
    ensures Save(Save(st, m1), m2) == Save(st, m2)
  {
  }

  /** A feature never saved is not found. */
  lemma NeverSavedNotFound(feature: string)
    ensures Find(Empty, feature) == None
    ensures !Exists(Empty, feature)
  {
  }
}
