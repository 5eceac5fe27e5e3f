/** The translation revision store behind the editor views of
    interp/views/translate.py.

    Each (user, task) pair has one translation.  A translation owns an
    append-only list of durable versions (confirmed saves) and a slot of
    autosave "particles".  The database tables become sequences held by the
    class `Store`: the index of a translation or a version is its id, a
    particle carries its own id because particles are deleted. */
module Translate {

  datatype Option<T> = None | Some(value: T)

  type UserId = nat
  type TaskId = nat

  datatype Language = Language(name: string, rtl: bool)

  /** A row of the translation table: its owner, its task and the language
      it was created in. */
  datatype Translation = Translation(user: UserId, task: TaskId, language: Language)

  /** What a content version is attached to: the generic relation of the
      version table points either at a translation or at something else
      (a task's own text). */
  datatype ContentOwner = OfTranslation(translation: nat) | OfOther

  datatype Version = Version(owner: ContentOwner, createTime: int, text: string)

  datatype Particle = Particle(id: nat, translation: nat, text: string, dateTime: int)

  /** The HTTP answer of a view: "done" (or the text asked for), "Not
      Modified", 403, 400, or the lookup exception of a missing row. */
  datatype Outcome = Done | NotModified | Forbidden | BadRequest | NotFound

  /** The values a PDF or preview template is rendered with. */
  datatype PdfContext = PdfContext(content: Option<string>, direction: string, title: string)

  datatype Task = Task(id: TaskId, title: string)

  // ---------------------------------------------------------------------
  // Python's str.strip()

  /** The characters for which Python's str.isspace() holds: the ASCII
      controls 9-13 and 28-31, the space, and the Unicode spaces and
      separators. */
  const Whitespace: string :=
    "\t\n\U{B}\U{C}\r\U{1C}\U{1D}\U{1E}\U{1F} \U{85}\U{A0}\U{1680}"
    + "\U{2000}\U{2001}\U{2002}\U{2003}\U{2004}\U{2005}\U{2006}\U{2007}\U{2008}\U{2009}\U{200A}"
    + "\U{2028}\U{2029}\U{202F}\U{205F}\U{3000}"

  /** `c` occurs in `chars`. */
  predicate Among(c: char, chars: string)
  {
    |chars| > 0 && (chars[0] == c || Among(c, chars[1..]))
  }

  predicate IsSpace(c: char)
  {
    Among(c, Whitespace)
  }

  predicate AllSpace(s: string)
  {
    forall k :: 0 <= k < |s| ==> IsSpace(s[k])
  }

  /** The left scan of `strip`: the first index at or after `i` that does
      not hold whitespace, or `|s|`. */
  function SkipSpaces(s: string, i: nat): (n: nat)
    requires i <= |s|
    ensures i <= n <= |s|
    ensures forall k :: i <= k < n ==> IsSpace(s[k])
    ensures n == |s| || !IsSpace(s[n])
    decreases |s| - i
  {
    if i < |s| && IsSpace(s[i]) then SkipSpaces(s, i + 1) else i
  }

  /** The right scan of `strip`, which stops at `lo`: the least index `n`
      at or after `lo` such that `s[n..j]` is all whitespace. */
  function SkipSpacesBack(s: string, lo: nat, j: nat): (n: nat)
    requires lo <= j <= |s|
    ensures lo <= n <= j
    ensures forall k :: n <= k < j ==> IsSpace(s[k])
    ensures n == lo || !IsSpace(s[n - 1])
  {
    if lo < j && IsSpace(s[j - 1]) then SkipSpacesBack(s, lo, j - 1) else j
  }

  /** Python's `s.strip()`: `s` without its leading and trailing
      whitespace. */
  function Strip(s: string): (r: string)
    ensures |r| <= |s|
    ensures r == [] || (!IsSpace(r[0]) && !IsSpace(r[|r| - 1]))
    ensures exists lo, hi :: 0 <= lo <= hi <= |s| && r == s[lo..hi] && AllSpace(s[..lo]) && AllSpace(s[hi..])
  {
    var lo := SkipSpaces(s, 0);
    var hi := SkipSpacesBack(s, lo, |s|);
    assert AllSpace(s[..lo]) by {
      forall k | 0 <= k < lo
        ensures IsSpace(s[..lo][k])
      {
        assert s[..lo][k] == s[k];
      }
    }
    assert AllSpace(s[hi..]) by {
      forall k | 0 <= k < |s| - hi
        ensures IsSpace(s[hi..][k])
      {
        assert s[hi..][k] == s[hi + k];
      }
    }
    s[lo..hi]
  }

  /** Only an all-whitespace text strips to the empty text. */
  lemma StripEmpty(s: string)
    ensures Strip(s) == [] <==> AllSpace(s)
  {
    var lo := SkipSpaces(s, 0);
    if lo < |s| {
      assert SkipSpacesBack(s, lo, |s|) > lo;
    }
  }

  /** A scan result is determined by the properties its contract states. */
  lemma SkipSpacesIs(s: string, i: nat, n: nat)
    requires i <= n <= |s|
    requires forall k :: i <= k < n ==> IsSpace(s[k])
    requires n == |s| || !IsSpace(s[n])
    ensures SkipSpaces(s, i) == n
  {
  }

  lemma SkipSpacesBackIs(s: string, lo: nat, j: nat, n: nat)
    requires lo <= n <= j <= |s|
    requires forall k :: n <= k < j ==> IsSpace(s[k])
    requires n == lo || !IsSpace(s[n - 1])
    ensures SkipSpacesBack(s, lo, j) == n
  {
  }

  /** Whitespace in front of a text does not change what it strips to. */
  lemma StripPadFront(front: string, s: string)
    requires AllSpace(front)
    ensures Strip(front + s) == Strip(s)
  {
    ScansPadFront(front, s);
  }

  /** The two scans of `front + s` select the same characters as those of
      `s`. */
  lemma ScansPadFront(front: string, s: string)
    requires AllSpace(front)
    ensures var t := front + s; var l := SkipSpaces(t, 0);
            t[l..SkipSpacesBack(t, l, |t|)] == s[SkipSpaces(s, 0)..SkipSpacesBack(s, SkipSpaces(s, 0), |s|)]
  {
    var lo := SkipSpaces(s, 0);
    var hi := SkipSpacesBack(s, lo, |s|);
    LeftScanPadFront(front, s);
    RightScanPadFront(front, s, lo);
    InfixAfter(front, s, lo, hi);
  }

  lemma LeftScanPadFront(front: string, s: string)
    requires AllSpace(front)
    ensures SkipSpaces(front + s, 0) == |front| + SkipSpaces(s, 0)
  {
    var t, f, lo := front + s, |front|, SkipSpaces(s, 0);
    forall k | 0 <= k < f + lo
      ensures IsSpace(t[k])
    {
      if k < f {
        assert t[k] == front[k];
      } else {
        assert t[k] == s[k - f];
      }
    }
    if lo < |s| {
      assert t[f + lo] == s[lo];
    }
    SkipSpacesIs(t, 0, f + lo);
  }

  lemma RightScanPadFront(front: string, s: string, lo: nat)
    requires lo <= |s|
    ensures SkipSpacesBack(front + s, |front| + lo, |front + s|) == |front| + SkipSpacesBack(s, lo, |s|)
  {
    var t, f, hi := front + s, |front|, SkipSpacesBack(s, lo, |s|);
    forall k | f + hi <= k < |t|
      ensures IsSpace(t[k])
    {
      assert t[k] == s[k - f];
    }
    if hi != lo {
      assert t[f + hi - 1] == s[hi - 1];
    }
    SkipSpacesBackIs(t, f + lo, |t|, f + hi);
  }

  lemma InfixAfter(front: string, s: string, i: nat, j: nat)
    requires i <= j <= |s|
    ensures (front + s)[|front| + i..|front| + j] == s[i..j]
  {
    var t, f := front + s, |front|;
    forall k | 0 <= k < j - i
      ensures t[f + i..f + j][k] == s[i..j][k]
    {
      assert t[f + i + k] == s[i + k];
    }
  }

  /** Whitespace after a text does not change what it strips to. */
  lemma StripPadBack(s: string, back: string)
    requires AllSpace(back)
    ensures Strip(s + back) == Strip(s)
  {
    var t := s + back;
    var lo := SkipSpaces(s, 0);
    var hi := SkipSpacesBack(s, lo, |s|);
    if lo < |s| {
      assert t[lo] == s[lo];
      SkipSpacesIs(t, 0, lo);
      forall k | hi <= k < |t|
        ensures IsSpace(t[k])
      {
        if k < |s| {
          assert t[k] == s[k];
        } else {
          assert t[k] == back[k - |s|];
        }
      }
      if hi != lo {
        assert t[hi - 1] == s[hi - 1];
      }
      SkipSpacesBackIs(t, lo, |t|, hi);
      InfixBefore(s, back, lo, hi);
      assert Strip(t) == t[lo..hi];
    } else {
      forall k | 0 <= k < |t|
        ensures IsSpace(t[k])
      {
        if k < |s| {
          assert t[k] == s[k];
        } else {
          assert t[k] == back[k - |s|];
        }
      }
      SkipSpacesIs(t, 0, |t|);
    }
  }

  lemma InfixBefore(s: string, back: string, i: nat, j: nat)
    requires i <= j <= |s|
    ensures (s + back)[i..j] == s[i..j]
  {
    var t := s + back;
    forall k | 0 <= k < j - i
      ensures t[i..j][k] == s[i..j][k]
    {
      assert t[i + k] == s[i + k];
    }
  }

  /** An autosave that only adds whitespace around a text strips to the
      same text: such a save is "Not Modified". */
  lemma StripIgnoresPadding(front: string, s: string, back: string)
    requires AllSpace(front) && AllSpace(back)
    ensures Strip(front + s + back) == Strip(s)
  {
    StripPadBack(front + s, back);
    StripPadFront(front, s);
  }

  /** Stripping twice is stripping once. */
  lemma StripIdempotent(s: string)
    ensures Strip(Strip(s)) == Strip(s)
  {
    var r := Strip(s);
    if r != [] {
      SkipSpacesIs(r, 0, 0);
      SkipSpacesBackIs(r, 0, |r|, |r|);
      assert r[0..|r|] == r;
    }
  }

  // ---------------------------------------------------------------------
  // Queries over the tables

  /** The translation of `user` for `task`, as `Translation.objects.get(
      user=user, task=task)` finds it. */
  function Lookup(trs: seq<Translation>, user: UserId, task: TaskId): (r: Option<nat>)
    ensures r.Some? ==> r.value < |trs| && trs[r.value].user == user && trs[r.value].task == task
    ensures r.None? ==> forall i :: 0 <= i < |trs| ==> trs[i].user != user || trs[i].task != task
  {
    if |trs| == 0 then None
    else if trs[|trs| - 1].user == user && trs[|trs| - 1].task == task then Some(|trs| - 1)
    else Lookup(trs[..|trs| - 1], user, task)
  }

  /** Every (user, task) pair has at most one translation. */
  ghost predicate UniqueKeys(trs: seq<Translation>)
  {
    forall i, j :: 0 <= i < j < |trs| ==> trs[i].user != trs[j].user || trs[i].task != trs[j].task
  }

  /** The ids of the versions of translation `tid`, oldest first
      (`trans.versions.all()`). */
  function VersionIds(vs: seq<Version>, tid: nat): (ids: seq<nat>)
    ensures forall k :: 0 <= k < |ids| ==> ids[k] < |vs| && vs[ids[k]].owner == OfTranslation(tid)
    ensures forall k, l :: 0 <= k < l < |ids| ==> ids[k] < ids[l]
    ensures forall i :: 0 <= i < |vs| && vs[i].owner == OfTranslation(tid) ==> i in ids
  {
    if |vs| == 0 then []
    else VersionIds(vs[..|vs| - 1], tid) + (if vs[|vs| - 1].owner == OfTranslation(tid) then [|vs| - 1] else [])
  }

  /** The newest version of translation `tid`. */
  function LatestVersion(vs: seq<Version>, tid: nat): (r: Option<nat>)
    ensures r.Some? ==> r.value < |vs| && vs[r.value].owner == OfTranslation(tid)
    ensures r.Some? ==> forall j :: r.value < j < |vs| ==> vs[j].owner != OfTranslation(tid)
    ensures r.None? ==> forall j :: 0 <= j < |vs| ==> vs[j].owner != OfTranslation(tid)
  {
    if |vs| == 0 then None
    else if vs[|vs| - 1].owner == OfTranslation(tid) then Some(|vs| - 1)
    else LatestVersion(vs[..|vs| - 1], tid)
  }

  /** The newest particle of translation `tid` by `dateTime`
      (`order_by('-date_time').first()`); among equal times the first in
      the table. */
  function Newest(ps: seq<Particle>, tid: nat): (r: Option<nat>)
    ensures r.Some? ==> r.value < |ps| && ps[r.value].translation == tid
    ensures r.Some? ==> forall j :: 0 <= j < |ps| && ps[j].translation == tid ==> ps[j].dateTime <= ps[r.value].dateTime
    ensures r.None? <==> forall j :: 0 <= j < |ps| ==> ps[j].translation != tid
  {
    if |ps| == 0 then None
    else
      var r := Newest(ps[..|ps| - 1], tid);
      if ps[|ps| - 1].translation != tid then r
      else if r.Some? && ps[|ps| - 1].dateTime <= ps[r.value].dateTime then r
      else Some(|ps| - 1)
  }

  /** The particle with id `id` (`VersionParticle.objects.get(id=id)`). */
  function FindParticle(ps: seq<Particle>, id: nat): (r: Option<nat>)
    ensures r.Some? ==> r.value < |ps| && ps[r.value].id == id
    ensures r.None? ==> forall k :: 0 <= k < |ps| ==> ps[k].id != id
  {
    if |ps| == 0 then None
    else if ps[|ps| - 1].id == id then Some(|ps| - 1)
    else FindParticle(ps[..|ps| - 1], id)
  }

  /** The text an editor sees (`get_latest_text` of the models module,
      whose body is not part of this model): the newest particle's text if
      the translation has a particle, otherwise its newest version's text. */
  function LatestText(vs: seq<Version>, ps: seq<Particle>, tid: nat): (r: Option<string>)
    ensures r.None? <==> Newest(ps, tid).None? && LatestVersion(vs, tid).None?
    ensures Newest(ps, tid).Some? ==> r == Some(ps[Newest(ps, tid).value].text)
    ensures Newest(ps, tid).None? && LatestVersion(vs, tid).Some? ==> r == Some(vs[LatestVersion(vs, tid).value].text)
  {
    match Newest(ps, tid)
    case Some(k) => Some(ps[k].text)
    case None =>
      match LatestVersion(vs, tid)
      case Some(i) => Some(vs[i].text)
      case None => None
  }

  function ParticlesOf(ps: seq<Particle>, tid: nat): (r: seq<Particle>)
    ensures forall p :: p in r <==> p in ps && p.translation == tid
  {
    if |ps| == 0 then []
    else (if ps[0].translation == tid then [ps[0]] else []) + ParticlesOf(ps[1..], tid)
  }

  /** `VersionParticle.objects.filter(translation=tid).delete()`: the
      particle table without the particles of `tid`. */
  function DropParticlesOf(ps: seq<Particle>, tid: nat): (r: seq<Particle>)
    ensures forall p :: p in r <==> p in ps && p.translation != tid
  {
    if |ps| == 0 then []
    else (if ps[0].translation == tid then [] else [ps[0]]) + DropParticlesOf(ps[1..], tid)
  }

  /** The filter keeps each particle of `tid` as often as the table holds
      it, and no other. */
  lemma {:induction false} ParticlesOfCount(ps: seq<Particle>, tid: nat)
    ensures forall p :: multiset(ParticlesOf(ps, tid))[p] == if p.translation == tid then multiset(ps)[p] else 0
  {
    if |ps| > 0 {
      assert ps == [ps[0]] + ps[1..];
      ParticlesOfCount(ps[1..], tid);
    }
  }

  /** The delete keeps each particle of another translation as often as
      the table holds it, and no particle of `tid`. */
  lemma {:induction false} DropParticlesOfCount(ps: seq<Particle>, tid: nat)
    ensures forall p :: multiset(DropParticlesOf(ps, tid))[p] == if p.translation != tid then multiset(ps)[p] else 0
  {
    if |ps| > 0 {
      assert ps == [ps[0]] + ps[1..];
      DropParticlesOfCount(ps[1..], tid);
    }
  }

  ghost predicate ParticleIdsDistinct(ps: seq<Particle>)
  {
    forall i, j :: 0 <= i < j < |ps| ==> ps[i].id != ps[j].id
  }

  /** The single-slot rule which the autosave is meant to keep: no
      translation has two particles. */
  ghost predicate AtMostOnePerTranslation(ps: seq<Particle>)
  {
    forall i, j :: 0 <= i < j < |ps| ==> ps[i].translation != ps[j].translation
  }

  predicate SortedByDate(ps: seq<Particle>)
  {
    forall j, k :: 0 <= j < k < |ps| ==> ps[j].dateTime <= ps[k].dateTime
  }

  function InsertByDate(p: Particle, ps: seq<Particle>): (r: seq<Particle>)
    requires SortedByDate(ps)
    ensures SortedByDate(r)
    ensures multiset(r) == multiset(ps) + multiset{p}
  {
    if |ps| == 0 then [p]
    else if p.dateTime <= ps[0].dateTime then [p] + ps
    else
      var rest := InsertByDate(p, ps[1..]);
      assert ps == [ps[0]] + ps[1..];
      AboveAll(ps[0], p, ps[1..], rest);
      [ps[0]] + rest
  }

  /** A particle no later than `p` and than every particle of `ps` is no
      later than any particle of `r`, a permutation of `ps` plus `p`. */
  lemma AboveAll(x: Particle, p: Particle, ps: seq<Particle>, r: seq<Particle>)
    requires multiset(r) == multiset(ps) + multiset{p}
    requires x.dateTime <= p.dateTime
    requires forall k :: 0 <= k < |ps| ==> x.dateTime <= ps[k].dateTime
    ensures forall k :: 0 <= k < |r| ==> x.dateTime <= r[k].dateTime
  {
    forall k | 0 <= k < |r|
      ensures x.dateTime <= r[k].dateTime
    {
      assert r[k] in multiset(r);
      if r[k] != p {
        assert r[k] in multiset(ps);
        var i :| 0 <= i < |ps| && ps[i] == r[k];
      }
    }
  }

  /** The particle query's `order_by('date_time')`. */
  function SortByDate(ps: seq<Particle>): (r: seq<Particle>)
    ensures SortedByDate(r)
    ensures multiset(r) == multiset(ps)
  {
    if |ps| == 0 then []
    else
      assert ps == [ps[0]] + ps[1..];
      InsertByDate(ps[0], SortByDate(ps[1..]))
  }

  /** The (id, date_time) pairs the listing view shows. */
  function Stamps(ps: seq<Particle>): (r: seq<(nat, int)>)
    ensures |r| == |ps| && forall k :: 0 <= k < |ps| ==> r[k] == (ps[k].id, ps[k].dateTime)
  {
    if |ps| == 0 then [] else [(ps[0].id, ps[0].dateTime)] + Stamps(ps[1..])
  }

  /** The loop of `Versions.get` that collects (id, date_time) of each
      particle of a query result. */
  method StampsOf(items: seq<Particle>) returns (vp: seq<(nat, int)>)
    ensures vp == Stamps(items)
  {
    vp := [];
    var i := 0;
    while i < |items|
      invariant 0 <= i <= |items|
      invariant |vp| == i
      invariant forall k :: 0 <= k < i ==> vp[k] == (items[k].id, items[k].dateTime)
    {
      vp := vp + [(items[i].id, items[i].dateTime)];
      i := i + 1;
    }
  }

  /** The stamps of a list in date order are in date order. */
  lemma StampsSorted(ps: seq<Particle>)
    requires SortedByDate(ps)
    ensures forall j, k :: 0 <= j < k < |ps| ==> Stamps(ps)[j].1 <= Stamps(ps)[k].1
  {
  }

  /** The autosave write: the newest particle of `tid` gets the new text,
      or, when `tid` has none, a particle is created. */
  function Autosave(ps: seq<Particle>, tid: nat, content: string, now: int, freshId: nat): (r: seq<Particle>)
    ensures Newest(ps, tid).Some? ==> |r| == |ps|
    ensures Newest(ps, tid).Some? ==>
              && r[Newest(ps, tid).value].text == content
              && forall k :: 0 <= k < |ps| && k != Newest(ps, tid).value ==> r[k] == ps[k]
    ensures Newest(ps, tid).None? ==> |r| == |ps| + 1 && r[|ps|] == Particle(freshId, tid, content, now)
    ensures Newest(ps, tid).None? ==> forall k :: 0 <= k < |ps| ==> r[k] == ps[k]
    ensures forall k :: 0 <= k < |ps| ==>
              r[k].id == ps[k].id && r[k].translation == ps[k].translation && r[k].dateTime == ps[k].dateTime
    ensures forall k :: 0 <= k < |ps| && ps[k].translation != tid ==> r[k] == ps[k]
  {
    match Newest(ps, tid)
    case Some(k) => ps[k := ps[k].(text := content)]
    case None => ps + [Particle(freshId, tid, content, now)]
  }

  /** The direction a template is rendered in. */
  function Direction(rtl: bool): (d: string)
    ensures d == "rtl" || d == "ltr"
    ensures d == "rtl" <==> rtl
  {
    if rtl then "rtl" else "ltr"
  }

  // ---------------------------------------------------------------------
  // Lemmas about the queries

  /** A translation found by (user, task) belongs to that user: the
      `user != translation.user` guard of the save views never fires. */
  lemma {:induction false} LookupIsOwned(trs: seq<Translation>, user: UserId, task: TaskId)
    ensures Lookup(trs, user, task).Some? ==> trs[Lookup(trs, user, task).value].user == user
    ensures Lookup(trs, user, task).None? <==> forall i :: 0 <= i < |trs| ==> trs[i] != Translation(user, task, trs[i].language)
  {
    if |trs| > 0 && !(trs[|trs| - 1].user == user && trs[|trs| - 1].task == task) {
      LookupIsOwned(trs[..|trs| - 1], user, task);
    }
  }

  /** The newest particle depends only on the translations and times of
      the particles, not on their texts. */
  lemma {:induction false} NewestIgnoresText(ps: seq<Particle>, qs: seq<Particle>, tid: nat)
    requires |ps| == |qs|
    requires forall k :: 0 <= k < |ps| ==> ps[k].translation == qs[k].translation && ps[k].dateTime == qs[k].dateTime
    ensures Newest(ps, tid) == Newest(qs, tid)
  {
    if |ps| > 0 {
      NewestIgnoresText(ps[..|ps| - 1], qs[..|qs| - 1], tid);
    }
  }

  /** After an autosave the editor sees the autosaved text. */
  lemma AutosaveResolves(vs: seq<Version>, ps: seq<Particle>, tid: nat, content: string, now: int, freshId: nat)
    ensures LatestText(vs, Autosave(ps, tid, content, now, freshId), tid) == Some(content)
  {
    var r := Autosave(ps, tid, content, now, freshId);
    match Newest(ps, tid)
    case Some(k) =>
      NewestIgnoresText(ps, r, tid);
    case None =>
      assert r[..|r| - 1] == ps;
  }

  /** After a new version is added to a translation that has no particle,
      the editor sees the version's text. */
  lemma NewVersionResolves(vs: seq<Version>, ps: seq<Particle>, tid: nat, text: string, now: int)
    requires forall k :: 0 <= k < |ps| ==> ps[k].translation != tid
    ensures LatestText(vs + [Version(OfTranslation(tid), now, text)], ps, tid) == Some(text)
  {
    var seeded := vs + [Version(OfTranslation(tid), now, text)];
    assert Newest(ps, tid).None?;
    assert LatestVersion(seeded, tid) == Some(|vs|);
  }

  lemma {:induction false} NoVersionsNoIds(vs: seq<Version>, tid: nat)
    requires forall i :: 0 <= i < |vs| ==> vs[i].owner != OfTranslation(tid)
    ensures VersionIds(vs, tid) == []
  {
    if |vs| > 0 {
      NoVersionsNoIds(vs[..|vs| - 1], tid);
    }
  }

  /** Seeding a translation that has no version gives it exactly one
      version. */
  lemma SeedIsOnlyVersion(vs: seq<Version>, tid: nat, text: string, now: int)
    requires forall i :: 0 <= i < |vs| ==> vs[i].owner != OfTranslation(tid)
    ensures VersionIds(vs + [Version(OfTranslation(tid), now, text)], tid) == [|vs|]
  {
    VersionIdsAppend(vs, Version(OfTranslation(tid), now, text), tid);
    NoVersionsNoIds(vs, tid);
  }

  lemma VersionIdsAppend(vs: seq<Version>, v: Version, tid: nat)
    ensures VersionIds(vs + [v], tid) == VersionIds(vs, tid) + (if v.owner == OfTranslation(tid) then [|vs|] else [])
  {
    assert (vs + [v])[..|vs|] == vs;
  }

  /** Deleting the particles of one translation keeps particle ids
      distinct and keeps the single-slot rule. */
  lemma DropKeepsDistinct(ps: seq<Particle>, tid: nat)
    ensures ParticleIdsDistinct(ps) ==> ParticleIdsDistinct(DropParticlesOf(ps, tid))
    ensures AtMostOnePerTranslation(ps) ==> AtMostOnePerTranslation(DropParticlesOf(ps, tid))
  {
    if ParticleIdsDistinct(ps) {
      DropKeepsIds(ps, tid);
    }
    if AtMostOnePerTranslation(ps) {
      DropKeepsSingleSlot(ps, tid);
    }
  }

  lemma {:induction false} DropKeepsIds(ps: seq<Particle>, tid: nat)
    requires ParticleIdsDistinct(ps)
    ensures ParticleIdsDistinct(DropParticlesOf(ps, tid))
  {
    if |ps| > 0 {
      DropKeepsIds(ps[1..], tid);
      var rest := DropParticlesOf(ps[1..], tid);
      assert forall k :: 0 <= k < |rest| ==> rest[k] in ps[1..];
    }
  }

  lemma {:induction false} DropKeepsSingleSlot(ps: seq<Particle>, tid: nat)
    requires AtMostOnePerTranslation(ps)
    ensures AtMostOnePerTranslation(DropParticlesOf(ps, tid))
  {
    if |ps| > 0 {
      DropKeepsSingleSlot(ps[1..], tid);
      var rest := DropParticlesOf(ps[1..], tid);
      assert forall k :: 0 <= k < |rest| ==> rest[k] in ps[1..];
    }
  }

  /** What every particle of the table satisfies, every particle left after
      deleting those of `tid` satisfies, and none of them is of `tid`. */
  lemma DropBounds(ps: seq<Particle>, tid: nat, n: nat, m: nat)
    requires forall k :: 0 <= k < |ps| ==> ps[k].translation < n && ps[k].id < m
    ensures forall k :: 0 <= k < |DropParticlesOf(ps, tid)| ==>
              var p := DropParticlesOf(ps, tid)[k];
              p.translation < n && p.id < m && p.translation != tid
  {
    var r := DropParticlesOf(ps, tid);
    forall k | 0 <= k < |r|
      ensures r[k].translation < n && r[k].id < m && r[k].translation != tid
    {
      assert r[k] in r;
      var i :| 0 <= i < |ps| && ps[i] == r[k];
    }
  }

  /** An autosave with an id no particle has keeps particle ids distinct
      and keeps the single-slot rule. */
  lemma AutosaveKeepsDistinct(ps: seq<Particle>, tid: nat, content: string, now: int, freshId: nat)
    requires forall k :: 0 <= k < |ps| ==> ps[k].id < freshId
    ensures ParticleIdsDistinct(ps) ==> ParticleIdsDistinct(Autosave(ps, tid, content, now, freshId))
    ensures AtMostOnePerTranslation(ps) ==> AtMostOnePerTranslation(Autosave(ps, tid, content, now, freshId))
  {
  }

  /** Two autosaves with different texts on a translation without a
      particle leave exactly one particle: it holds the second text and
      keeps the first save's time and id. */
  lemma AutosaveTwice(ps: seq<Particle>, tid: nat, first: string, second: string, t1: int, t2: int, id: nat)
    requires forall k :: 0 <= k < |ps| ==> ps[k].translation != tid
    ensures Autosave(Autosave(ps, tid, first, t1, id), tid, second, t2, id + 1) == ps + [Particle(id, tid, second, t1)]
  {
    var once := Autosave(ps, tid, first, t1, id);
    assert once == ps + [Particle(id, tid, first, t1)];
    assert Newest(once, tid) == Some(|ps|) by {
      assert once[..|once| - 1] == ps;
    }
  }

  /** The table invariants: one translation per (user, task), versions
      and particles point at existing translations, particle ids are
      distinct and below the next id to hand out. */
  ghost predicate ValidTables(trs: seq<Translation>, vs: seq<Version>, ps: seq<Particle>, next: nat)
  {
    && UniqueKeys(trs)
    && (forall i :: 0 <= i < |vs| && vs[i].owner.OfTranslation? ==> vs[i].owner.translation < |trs|)
    && (forall k :: 0 <= k < |ps| ==> ps[k].translation < |trs| && ps[k].id < next)
    && ParticleIdsDistinct(ps)
  }

  /** A confirmed save of translation `tid` keeps the table invariants,
      leaves `tid` without particles and makes the saved text the one the
      editor sees. */
  lemma SaveKeepsValid(trs: seq<Translation>, vs: seq<Version>, ps: seq<Particle>, next: nat,
                       tid: nat, content: string, now: int)
    requires ValidTables(trs, vs, ps, next) && tid < |trs|
    ensures ValidTables(trs, vs + [Version(OfTranslation(tid), now, content)], DropParticlesOf(ps, tid), next)
    ensures forall k :: 0 <= k < |DropParticlesOf(ps, tid)| ==> DropParticlesOf(ps, tid)[k].translation != tid
    ensures LatestText(vs + [Version(OfTranslation(tid), now, content)], DropParticlesOf(ps, tid), tid) == Some(content)
  {
    DropKeepsIds(ps, tid);
    DropBounds(ps, tid, |trs|, next);
    NewVersionResolves(vs, DropParticlesOf(ps, tid), tid, content, now);
  }

  // ---------------------------------------------------------------------
  // The store

  class Store {
    var translations: seq<Translation>
    var versions: seq<Version>
    var particles: seq<Particle>
    var nextParticleId: nat

    ghost predicate Valid()
      reads this
    {
      ValidTables(translations, versions, particles, nextParticleId)
    }

    ghost predicate AtMostOneParticle()
      reads this
    {
      AtMostOnePerTranslation(particles)
    }

    /** The ownership test both read views share: `user` owns translation
        `tid`. */
    predicate OwnsTranslation(user: UserId, tid: nat)
      reads this
    {
      tid < |translations| && translations[tid].user == user
    }

    /** A store whose version table holds only versions of other content
        (the tasks' own texts). */
    constructor (otherVersions: seq<Version>)
      requires forall i :: 0 <= i < |otherVersions| ==> otherVersions[i].owner == OfOther
      ensures Valid() && AtMostOneParticle()
      ensures translations == [] && versions == otherVersions && particles == [] && nextParticleId == 0
    {
      translations := [];
      versions := otherVersions;
      particles := [];
      nextParticleId := 0;
    }

    /** `Translation.objects.get(user=user, task=task)`, creating the
        translation in the user's language when it is missing. */
    method FindOrCreate(user: UserId, task: TaskId, language: Language) returns (tid: nat, created: bool)
      requires Valid()
      modifies this
      ensures Valid()
      ensures created <==> Lookup(old(translations), user, task).None?
      ensures tid < |translations| && translations[tid].user == user && translations[tid].task == task
      ensures !created ==> translations == old(translations) && Some(tid) == Lookup(old(translations), user, task)
      ensures created ==> translations == old(translations) + [Translation(user, task, language)] && tid == |old(translations)|
      ensures versions == old(versions) && particles == old(particles) && nextParticleId == old(nextParticleId)
    {
      var found := Lookup(translations, user, task);
      if found.Some? {
        tid, created := found.value, false;
      } else {
        tid, created := |translations|, true;
        translations := translations + [Translation(user, task, language)];
      }
    }

    /** `Questions.get`: opening a task finds the user's translation, or
        creates it seeded with one version holding the task's text.
        Returns the text the editor shows. */
    method OpenTask(user: UserId, task: TaskId, language: Language, taskText: string, now: int)
      returns (tid: nat, editorText: Option<string>)
      requires Valid()
      modifies this
      ensures Valid()
      ensures tid < |translations| && translations[tid].user == user && translations[tid].task == task
      ensures editorText == LatestText(versions, particles, tid)
      ensures Lookup(old(translations), user, task).Some? ==>
                && Some(tid) == Lookup(old(translations), user, task)
                && translations == old(translations) && versions == old(versions) && particles == old(particles)
      ensures Lookup(old(translations), user, task).None? ==>
                && translations == old(translations) + [Translation(user, task, language)]
                && versions == old(versions) + [Version(OfTranslation(tid), now, taskText)]
                && VersionIds(versions, tid) == [|old(versions)|]
                && particles == old(particles)
                && editorText == Some(taskText)
      ensures nextParticleId == old(nextParticleId)
      ensures old(AtMostOneParticle()) ==> AtMostOneParticle()
    {
      var created;
      tid, created := FindOrCreate(user, task, language);
      if created {
        SeedIsOnlyVersion(versions, tid, taskText, now);
        NewVersionResolves(versions, particles, tid, taskText, now);
        versions := versions + [Version(OfTranslation(tid), now, taskText)];
        editorText := Some(taskText);
      } else {
        editorText := LatestText(versions, particles, tid);
      }
    }

    /** `SaveQuestion.post`: a confirmed save appends a version with the
        submitted text and deletes every particle of the translation. */
    method SaveQuestion(user: UserId, task: TaskId, content: string, now: int) returns (o: Outcome)
      requires Valid()
      modifies this
      ensures Valid()
      ensures o == Done || o == NotFound
      ensures o == NotFound <==> Lookup(old(translations), user, task).None?
      ensures o == NotFound ==> unchanged(this)
      ensures o == Done ==>
                var tid := Lookup(old(translations), user, task).value;
                && translations == old(translations)
                && versions == old(versions) + [Version(OfTranslation(tid), now, content)]
                && particles == DropParticlesOf(old(particles), tid)
                && nextParticleId == old(nextParticleId)
                && (forall k :: 0 <= k < |particles| ==> particles[k].translation != tid)
                && LatestText(versions, particles, tid) == Some(content)
      ensures old(AtMostOneParticle()) ==> AtMostOneParticle()
    {
      var found := Lookup(translations, user, task);
      if found.None? {
        return NotFound;
      }
      var tid := found.value;
      // The view's ownership guard: the translation was found by its user.
      assert translations[tid].user == user;
      SaveKeepsValid(translations, versions, particles, nextParticleId, tid, content, now);
      DropKeepsDistinct(particles, tid);
      versions := versions + [Version(OfTranslation(tid), now, content)];
      particles := DropParticlesOf(particles, tid);
      o := Done;
    }

    /** `SaveVersionParticle.post`: an autosave.  "Not Modified" when the
        stripped text equals the stripped latest text; otherwise the
        newest particle gets the text, or a particle is created. */
    method SaveVersionParticle(user: UserId, task: TaskId, content: string, now: int) returns (o: Outcome)
      requires Valid()
      modifies this
      ensures Valid()
      ensures o == Done || o == NotModified || o == NotFound
      ensures o != Done ==> unchanged(this)
      ensures translations == old(translations) && versions == old(versions)
      ensures Lookup(old(translations), user, task).None? ==> o == NotFound
      ensures Lookup(old(translations), user, task).Some? ==>
                var tid := Lookup(old(translations), user, task).value;
                var latest := LatestText(old(versions), old(particles), tid);
                && (latest.None? ==> o == NotFound)
                && (latest.Some? && Strip(latest.value) == Strip(content) ==> o == NotModified)
                && (latest.Some? && Strip(latest.value) != Strip(content) ==>
                      && o == Done
                      && particles == Autosave(old(particles), tid, content, now, old(nextParticleId))
                      && nextParticleId == old(nextParticleId) + (if Newest(old(particles), tid).None? then 1 else 0)
                      && LatestText(versions, particles, tid) == Some(content))
      ensures old(AtMostOneParticle()) ==> AtMostOneParticle()
    {
      var found := Lookup(translations, user, task);
      if found.None? {
        return NotFound;
      }
      var tid := found.value;
      // The view's ownership guard: the translation was found by its user.
      assert translations[tid].user == user;
      var latest := LatestText(versions, particles, tid);
      if latest.None? {
        return NotFound;
      }
      if Strip(latest.value) == Strip(content) {
        return NotModified;
      }
      WriteParticle(tid, content, now);
      o := Done;
    }

    /** The write of an autosave that changes the text: the newest
        particle of `tid` is overwritten in place, keeping its id and
        time, or a particle is created with a fresh id. */
    method WriteParticle(tid: nat, content: string, now: int)
      requires Valid() && tid < |translations|
      modifies this
      ensures Valid()
      ensures translations == old(translations) && versions == old(versions)
      ensures particles == Autosave(old(particles), tid, content, now, old(nextParticleId))
      ensures nextParticleId == old(nextParticleId) + (if Newest(old(particles), tid).None? then 1 else 0)
      ensures LatestText(versions, particles, tid) == Some(content)
      ensures old(AtMostOneParticle()) ==> AtMostOneParticle()
    {
      AutosaveKeepsDistinct(particles, tid, content, now, nextParticleId);
      AutosaveResolves(versions, particles, tid, content, now, nextParticleId);
      var last := Newest(particles, tid);
      if last.Some? {
        particles := particles[last.value := particles[last.value].(text := content)];
      } else {
        particles := particles + [Particle(nextParticleId, tid, content, now)];
        nextParticleId := nextParticleId + 1;
      }
    }

    /** `GetVersion.get`: a version's text, for the owner of the
        translation it belongs to; 400 for anything else. */
    method GetVersion(user: UserId, id: nat) returns (o: Outcome, text: string)
      requires Valid()
      ensures o == Done || o == BadRequest || o == NotFound
      ensures o == NotFound <==> id >= |versions|
      ensures o == Done <==> id < |versions| && versions[id].owner.OfTranslation? &&
                             OwnsTranslation(user, versions[id].owner.translation)
      ensures o == Done ==> text == versions[id].text
    {
      if id >= |versions| {
        return NotFound, "";
      }
      var version := versions[id];
      if !version.owner.OfTranslation? || !OwnsTranslation(user, version.owner.translation) {
        return BadRequest, "";
      }
      return Done, version.text;
    }

    /** `GetVersionParticle.get`: a particle's text, for the owner of its
        translation; 403 for anyone else. */
    method GetVersionParticle(user: UserId, id: nat) returns (o: Outcome, text: string)
      requires Valid()
      ensures o == Done || o == Forbidden || o == NotFound
      ensures o == NotFound <==> FindParticle(particles, id).None?
      ensures o == Done <==> FindParticle(particles, id).Some? &&
                             OwnsTranslation(user, particles[FindParticle(particles, id).value].translation)
      ensures o == Done ==> text == particles[FindParticle(particles, id).value].text
    {
      var k := FindParticle(particles, id);
      if k.None? {
        return NotFound, "";
      }
      var particle := particles[k.value];
      if !OwnsTranslation(user, particle.translation) {
        return Forbidden, "";
      }
      return Done, particle.text;
    }

    /** The first list of `Versions.get`: (id, create time) of each
        version of translation `tid`, oldest first. */
    method ListVersionStamps(tid: nat) returns (v: seq<(nat, int)>)
      ensures |v| == |VersionIds(versions, tid)|
      ensures forall k :: 0 <= k < |v| ==>
                v[k].0 == VersionIds(versions, tid)[k] && v[k].1 == versions[v[k].0].createTime
    {
      var items := VersionIds(versions, tid);
      v := [];
      var i := 0;
      while i < |items|
        invariant 0 <= i <= |items|
        invariant |v| == i
        invariant forall k :: 0 <= k < i ==> v[k].0 == items[k] && v[k].1 == versions[items[k]].createTime
      {
        v := v + [(items[i], versions[items[i]].createTime)];
        i := i + 1;
      }
    }

    /** The second list of `Versions.get`: (id, date_time) of each
        particle of translation `tid`, in date order. */
    method ListParticleStamps(tid: nat) returns (vp: seq<(nat, int)>)
      ensures vp == Stamps(SortByDate(ParticlesOf(particles, tid)))
      ensures forall j, k :: 0 <= j < k < |vp| ==> vp[j].1 <= vp[k].1
    {
      var items := SortByDate(ParticlesOf(particles, tid));
      vp := StampsOf(items);
      StampsSorted(items);
    }

    /** `Versions.get`: finds or creates the user's translation (a
        translation created here gets no seed version) and lists its
        versions, its particles and its latest text. */
    method ListVersions(user: UserId, task: TaskId, language: Language)
      returns (tid: nat, v: seq<(nat, int)>, vp: seq<(nat, int)>, latest: Option<string>)
      requires Valid()
      modifies this
      ensures Valid()
      ensures tid < |translations| && translations[tid].user == user && translations[tid].task == task
      ensures Lookup(old(translations), user, task).Some? ==>
                translations == old(translations) && Some(tid) == Lookup(old(translations), user, task)
      ensures Lookup(old(translations), user, task).None? ==>
                translations == old(translations) + [Translation(user, task, language)]
      ensures versions == old(versions) && particles == old(particles) && nextParticleId == old(nextParticleId)
      ensures |v| == |VersionIds(versions, tid)|
      ensures forall k :: 0 <= k < |v| ==>
                v[k].0 == VersionIds(versions, tid)[k] && v[k].1 == versions[v[k].0].createTime
      ensures vp == Stamps(SortByDate(ParticlesOf(particles, tid)))
      ensures forall j, k :: 0 <= j < k < |vp| ==> vp[j].1 <= vp[k].1
      ensures latest == LatestText(versions, particles, tid)
    {
      var created;
      tid, created := FindOrCreate(user, task, language);
      v := ListVersionStamps(tid);
      vp := ListParticleStamps(tid);
      latest := LatestText(versions, particles, tid);
    }

    /** The context of `GetTranslatePreview.get`: the latest text, the
        direction of the translation's language and the title
        "task title-language". */
    function PreviewContext(user: UserId, task: Task): (r: Option<PdfContext>)
      reads this
      requires Valid()
      ensures r.Some? <==> Lookup(translations, user, task.id).Some?
      ensures r.Some? ==>
                var tid := Lookup(translations, user, task.id).value;
                && r.value.content == LatestText(versions, particles, tid)
                && (r.value.direction == "rtl" <==> translations[tid].language.rtl)
                && r.value.title == task.title + "-" + translations[tid].language.name
    {
      match Lookup(translations, user, task.id)
      case None => None
      case Some(tid) =>
        var language := translations[tid].language;
        Some(PdfContext(LatestText(versions, particles, tid), Direction(language.rtl), task.title + "-" + language.name))
    }

    /** The context of `GetTranslatePDF.get_context_data`: nothing when the
        task does not exist, otherwise that of the preview. */
    function PdfViewContext(user: UserId, task: Option<Task>): (r: Option<PdfContext>)
      reads this
      requires Valid()
      ensures task.None? ==> r.None?
      ensures task.Some? ==> r == PreviewContext(user, task.value)
    {
      if task.None? then None else PreviewContext(user, task.value)
    }
  }
}
