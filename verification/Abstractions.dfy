/** Endpoint abstractions: the holds and bookmarks by which a job marks versions of a filesystem. */
module Abstractions {
  import opened Versions
  import opened Names

  datatype AbsType = StepHold | LastReceivedHold | Tentative | CursorV1 | CursorV2

  predicate IsBookmarkType(t: AbsType) {
    t.Tentative? || t.CursorV1? || t.CursorV2?
  }

  /** `job` is absent for v1 cursors only. */
  datatype Abstraction = Abstraction(typ: AbsType, fs: string, version: Version, job: Option<string>)
  {
    function FullPath(): (s: string) {
      fs + (if IsBookmarkType(typ) then "#" else "@") + version.name
    }

    function JobOrZero(): (s: string) {
      if job.Some? then job.value else ""
    }

    /** The hold tag; bookmarks have none. */
    function Tag(): (s: string) {
      if typ.StepHold? then "zrepl_STEP_J_" + JobOrZero()
      else if typ.LastReceivedHold? then "zrepl_last_received_J_" + JobOrZero()
      else ""
    }

    predicate Valid() {
      && (IsBookmarkType(typ) <==> version.typ.Bookmark?)
      && (job.None? <==> typ.CursorV1?)
      && (job.Some? ==> job.value != "")
    }
  }

  /** Two versions are the same if guid and createtxg are; names may change. */
  predicate EqualIdentity(v: Version, w: Version) {
    v.guid == w.guid && v.txg == w.txg
  }

  /** Nil equals only nil; the printed form adds the hold tag to the other fields. */
  predicate Equals(a: Option<Abstraction>, b: Option<Abstraction>) {
    if a.None? || b.None? then a.None? && b.None?
    else
      && a.value.typ == b.value.typ
      && a.value.fs == b.value.fs
      && a.value.version.name == b.value.version.name
      && a.value.FullPath() == b.value.FullPath()
      && a.value.JobOrZero() == b.value.JobOrZero()
      && a.value.version.txg == b.value.version.txg
      && EqualIdentity(a.value.version, b.value.version)
      && a.value.Tag() == b.value.Tag()
  }

  lemma EqualsIsIdentity(a: Abstraction, b: Abstraction)
    requires a.Valid() && b.Valid()
    ensures Equals(Some(a), Some(b)) <==> a == b
  {}

  /** Destroying `a` acts on whatever is found under its path: the bookmark of that name, or the hold that this type
      and job put on the snapshot of that name. */
  predicate SamePlace(a: Abstraction, d: Abstraction) {
    && a.fs == d.fs && a.version.name == d.version.name
    && if IsBookmarkType(a.typ) then IsBookmarkType(d.typ) else a.typ == d.typ && a.job == d.job
  }

  // ----- Extraction from bookmarks -----

  function Extract(t: AbsType, fs: string, v: Version): (a: Option<Abstraction>)
    ensures a.Some? ==> a.value.typ == t && a.value.fs == fs && a.value.version == v
  {
    match t
    case Tentative =>
      var job := ExtractTentative(|fs|, v);
      if job.Some? then Some(Abstraction(t, fs, v, job)) else None
    case CursorV2 =>
      var job := ExtractCursorV2(|fs|, v);
      if job.Some? then Some(Abstraction(t, fs, v, job)) else None
    case CursorV1 => if ExtractCursorV1(|fs|, v) then Some(Abstraction(t, fs, v, None)) else None
    case _ => None
  }

  lemma OnlyOneExtracts(t: AbsType, t': AbsType, fs: string, v: Version)
    requires Extract(t, fs, v).Some? && Extract(t', fs, v).Some?
    ensures t == t'
  {
    ExtractorsDisjoint(|fs|, v);
  }

  /** Tries the extractors of all types in turn, in any order. The panic on a second match cannot happen. */
  method ExtractBookmark(types: seq<AbsType>, fs: string, v: Version) returns (r: Option<Abstraction>)
    requires forall i, j :: 0 <= i < j < |types| ==> types[i] != types[j]
    ensures r.Some? ==> r.value.typ in types && r == Extract(r.value.typ, fs, v)
    ensures r.None? ==> forall t :: t in types ==> Extract(t, fs, v).None?
  {
    var matched := 0;
    r := None;
    for i := 0 to |types|
      invariant 0 <= matched <= 1 && (matched == 1 <==> r.Some?)
      invariant r.Some? ==> r.value.typ in types[..i] && r == Extract(r.value.typ, fs, v)
      invariant r.None? ==> forall t :: t in types[..i] ==> Extract(t, fs, v).None?
    {
      assert types[..i + 1] == types[..i] + [types[i]];
      var a := Extract(types[i], fs, v);
      if a.Some? {
        if r.Some? {
          OnlyOneExtracts(r.value.typ, types[i], fs, v);
        }
        matched := matched + 1;
        r := a;
      }
    }
    assert matched <= 1;
    assert types[..|types|] == types;
  }
}
