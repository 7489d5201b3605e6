// Cleanup of temporary drop folders after a board has been renamed into place.
// File contents are given by what is decoded from them; directory order, files
// in use and failed writes are inputs.

module Drops {
  import opened Basics

  const DROP_MARKER: string := ".context-drop.json"
  const INPUT_MANIFEST: string := ".input.json"
  const FILES: seq<string> := [DROP_MARKER, "README.md", "message.md", "clipboard.png", "clipboard.bmp", INPUT_MANIFEST]
  const MAX_MARKER: nat := 2048
  const MAX_MANIFEST: nat := 2 * 1024 * 1024
  const MAX_OWNED: nat := 128
  const MAX_SCAN: nat := 256

  datatype Body =
    | Marker(schemaOk: bool, folder: string, retired: bool)
    | Manifest(schemaOk: bool, folder: string, ownedFiles: Option<seq<Option<string>>>)
    | Other

  /** A directory entry; `regular` excludes links and directories. */
  datatype File = File(regular: bool, size: nat, body: Body)

  /** A folder of the pool; `plain` excludes links. */
  datatype Folder = Folder(plain: bool, files: map<string, File>)

  // ----- Names -----

  predicate NameChar(c: char) {
    '0' <= c <= '9' || 'a' <= c <= 'z' || 'A' <= c <= 'Z' || c == '-' || c == '_'
  }

  predicate ValidDropFolder(folder: string) {
    0 < |folder| <= 100 && forall c <- folder :: NameChar(c)
  }

  /** Equality up to the case of ASCII letters. */
  predicate SameName(a: string, b: string) {
    |a| == |b| && forall i | 0 <= i < |a| :: LowerChar(a[i]) == LowerChar(b[i])
  }

  predicate OwnedName(name: string) {
    StartsWith(name, "attachment-") && |name| <= 240
    && forall c <- name :: c as int >= 32 && c as int != 127 && c !in "/\\:"
  }

  // ----- Ownership -----

  /** Whether a validly owned folder is retired; nothing when it is not owned. */
  function DropOwner(folders: map<string, Folder>, folder: string): Option<bool> {
    if !ValidDropFolder(folder) || folder !in folders || !folders[folder].plain then None
    else
      var files := folders[folder].files;
      if DROP_MARKER !in files then None
      else
        var marker := files[DROP_MARKER];
        if !marker.regular || marker.size > MAX_MARKER || !marker.body.Marker? then None
        else if !marker.body.schemaOk || marker.body.folder != folder then None
        else Some(marker.body.retired)
  }

  /** File names cleanup may delete, or nothing when the manifest is not in order. */
  function Allowed(files: map<string, File>, folder: string): Option<seq<string>> {
    if INPUT_MANIFEST !in files then Some(FILES)
    else
      var input := files[INPUT_MANIFEST];
      if !input.regular || input.size > MAX_MANIFEST || !input.body.Manifest? then None
      else if !input.body.schemaOk || input.body.folder != folder || input.body.ownedFiles.None? then None
      else
        var owned := input.body.ownedFiles.value;
        if |owned| > MAX_OWNED || exists o <- owned :: o.None? || !OwnedName(o.value) then None
        else Some(FILES + seq(|owned|, i requires 0 <= i < |owned| && owned[i].Some? => owned[i].value))
  }

  /** Every entry of the folder, not only the inspected ones, may be deleted. */
  predicate OnlyAllowed(files: map<string, File>, folder: string) {
    var allowed := Allowed(files, folder);
    allowed.Some? && forall name <- files.Keys :: name in allowed.value && files[name].regular
  }

  /** An order in which a directory may list its entries. */
  predicate IsListing(listing: seq<string>, files: map<string, File>) {
    (forall i, j | 0 <= i < j < |listing| :: listing[i] != listing[j])
    && (forall name <- listing :: name in files)
    && (forall name <- files.Keys :: name in listing)
  }

  // ----- Why a bounded inspection is enough -----

  ghost function Elements<T>(s: seq<T>): set<T> {
    set x | x in s
  }

  lemma {:induction false} DistinctCount<T>(s: seq<T>)
    ensures |Elements(s)| <= |s|
    ensures (forall i, j | 0 <= i < j < |s| :: s[i] != s[j]) ==> |Elements(s)| == |s|
  {
    if s != [] {
      var front, last := s[..|s| - 1], s[|s| - 1];
      DistinctCount(front);
      assert s == front + [last];
      assert Elements(s) == Elements(front) + {last};
    }
  }

  /** More distinct entries than allowed names: one of the first is unknown. */
  lemma InspectionCovers(listing: seq<string>, allowed: seq<string>)
    requires forall i, j | 0 <= i < j < |listing| :: listing[i] != listing[j]
    requires forall i | 0 <= i < |listing| && i <= |allowed| :: listing[i] in allowed
    ensures |listing| <= |allowed|
  {
    if |listing| > |allowed| {
      var first := listing[..|allowed| + 1];
      DistinctCount(first);
      DistinctCount(allowed);
      SubsetCount(Elements(first), Elements(allowed));
      assert false;
    }
  }

  /** Reads at most one entry more than there are allowed names, yet judges the whole folder. */
  method Inspect(files: map<string, File>, folder: string, listing: seq<string>) returns (victims: Option<seq<string>>)
    requires IsListing(listing, files)
    ensures victims.Some? <==> OnlyAllowed(files, folder)
    ensures victims.Some? ==> forall name :: name in victims.value <==> name in files && name != DROP_MARKER
    ensures victims.Some? ==> forall i, j | 0 <= i < j < |victims.value| :: victims.value[i] != victims.value[j]
  {
    hide Allowed;
    var allowed := Allowed(files, folder);
    if allowed.None? {
      return None;
    }
    var found: seq<string> := [];
    var i := 0;
    while i < |listing| && i < |allowed.value| + 1
      invariant 0 <= i <= |listing| && i <= |allowed.value| + 1
      invariant forall k | 0 <= k < i :: listing[k] in allowed.value && files[listing[k]].regular
      invariant forall k | 0 <= k < i && listing[k] != DROP_MARKER :: listing[k] in found
      invariant forall name <- found :: name in listing[..i] && name != DROP_MARKER
      invariant forall a, b | 0 <= a < b < |found| :: found[a] != found[b]
    {
      var name := listing[i];
      assert name in listing;
      if name !in allowed.value || !files[name].regular {
        return None;
      }
      if name != DROP_MARKER {
        assert name !in listing[..i];
        found := found + [name];
      }
      i := i + 1;
    }
    InspectionCovers(listing, allowed.value);
    assert i == |listing|;
    return Some(found);
  }

  // ----- What one folder may go through -----

  /** What the board tells cleanup about a post. */
  datatype Entry = Entry(localDrop: bool, folder: string)

  predicate Retained(retained: seq<Entry>, folder: string) {
    exists e <- retained :: SameName(e.folder, folder)
  }

  /** The marker may be rewritten; anything else is kept or gone, the marker last. */
  ghost predicate Cleaned(folder: string, before: Folder, after: Option<Folder>) {
    if after.None? then OnlyAllowed(before.files, folder)
    else
      && after.value.plain == before.plain
      && after.value.files.Keys <= before.files.Keys
      && (forall name <- after.value.files.Keys | name != DROP_MARKER :: after.value.files[name] == before.files[name])
      && (DROP_MARKER in after.value.files ==> Rewritten(before.files[DROP_MARKER], after.value.files[DROP_MARKER]))
      && (after.value.files.Keys != before.files.Keys ==>
            && OnlyAllowed(before.files, folder)
            && (DROP_MARKER !in after.value.files ==> after.value.files == map[])
            && (DROP_MARKER in after.value.files && after.value.files[DROP_MARKER].body.Marker? ==>
                  after.value.files[DROP_MARKER].body.retired))
  }

  /** A marker is left alone, marked retired, or spoilt by a write that failed. */
  ghost predicate Rewritten(before: File, after: File) {
    after.regular == before.regular && (after.body.Marker? ==> after.body == before.body || after.body.retired)
  }

  /** Cleanup had a reason to touch the folder. */
  ghost predicate Justified(before: map<string, Folder>, folder: string, retained: seq<Entry>, removed: seq<Entry>) {
    && !Retained(retained, folder)
    && DropOwner(before, folder).Some?
    && (DropOwner(before, folder).value || Entry(true, folder) in removed)
  }

  function At(folders: map<string, Folder>, folder: string): Option<Folder> {
    if folder in folders then Some(folders[folder]) else None
  }

  /** No folder appears, and every change of a folder is justified and orderly. */
  ghost predicate Safe(before: map<string, Folder>, now: map<string, Folder>,
                       retained: seq<Entry>, removed: seq<Entry>)
  {
    && now.Keys <= before.Keys
    && forall f <- before.Keys :: At(now, f) == Some(before[f])
         || (Justified(before, f, retained, removed) && Cleaned(f, before[f], At(now, f)))
  }

  lemma AllowedIgnoresMarker(a: map<string, File>, b: map<string, File>, folder: string)
    requires a.Keys == b.Keys
    requires forall name <- a.Keys | name != DROP_MARKER :: a[name] == b[name]
    requires DROP_MARKER in a ==> a[DROP_MARKER].regular == b[DROP_MARKER].regular
    ensures OnlyAllowed(a, folder) <==> OnlyAllowed(b, folder)
  {
    assert Allowed(a, folder) == Allowed(b, folder);
  }

  lemma CleanedTwice(folder: string, a: Folder, b: Folder, c: Option<Folder>)
    requires Cleaned(folder, a, Some(b)) && Cleaned(folder, b, c)
    requires DROP_MARKER in b.files
    ensures Cleaned(folder, a, c)
  {
    hide OnlyAllowed;
    if a.files.Keys == b.files.Keys {
      AllowedIgnoresMarker(a.files, b.files, folder);
    }
  }

  ghost predicate MarkedRetired(files: map<string, File>) {
    DROP_MARKER in files && files[DROP_MARKER].body.Marker? && files[DROP_MARKER].body.retired
  }

  lemma OwnedIsThere(folders: map<string, Folder>, folder: string)
    requires DropOwner(folders, folder).Some?
    ensures folder in folders && DROP_MARKER in folders[folder].files && folders[folder].files[DROP_MARKER].regular
    ensures folders[folder].files[DROP_MARKER].body.Marker?
    ensures DropOwner(folders, folder).value ==> MarkedRetired(folders[folder].files)
  {
  }

  lemma SafeStep(before: map<string, Folder>, mid: map<string, Folder>, now: map<string, Folder>, folder: string,
                 retained: seq<Entry>, removed: seq<Entry>)
    requires Safe(before, mid, retained, removed)
    requires folder in mid && !Retained(retained, folder)
    requires DropOwner(mid, folder).Some?
    requires DropOwner(mid, folder).value || Entry(true, folder) in removed
    requires now.Keys <= mid.Keys
    requires forall f | f != folder :: At(now, f) == At(mid, f)
    requires Cleaned(folder, mid[folder], At(now, folder))
    ensures Safe(before, now, retained, removed)
  {
    hide OnlyAllowed, Retained, Allowed;
    if At(mid, folder) != Some(before[folder]) {
      assert Cleaned(folder, before[folder], Some(mid[folder])) by { hide DropOwner; }
      CleanedTwice(folder, before[folder], mid[folder], At(now, folder));
    } else {
      assert DropOwner(before, folder) == DropOwner(mid, folder);
    }
    assert Justified(before, folder, retained, removed);
    hide Cleaned, DropOwner;
  }

  // ----- What a cleanup meets -----

  /** How removing one folder goes: its directory as listed, what is in use, and whether it can go itself. */
  datatype Attempt = Attempt(listing: seq<string>, locked: set<string>, markerLocked: bool, busy: bool)

  /** How marking a folder retired goes; a failed write may leave nothing readable. */
  datatype Marking = Written(size: nat) | Failed | Spoilt(size: nat)

  datatype Trial = Trial(marking: Marking, attempt: Attempt)

  /** A trial for each removed post, and the pool as listed with an attempt for each name. */
  datatype Course = Course(trials: seq<Trial>, pool: seq<string>, scans: seq<Attempt>) {
    predicate Fits(removed: seq<Entry>) {
      |trials| == |removed| && |scans| == |pool|
    }
  }

  /** The directory can be read, and nothing in it is in use. */
  predicate Smooth(a: Attempt, files: map<string, File>) {
    IsListing(a.listing, files) && a.locked !! files.Keys && !a.markerLocked && !a.busy
  }

  predicate WellMarked(m: Marking) {
    m.Written? && m.size <= MAX_MARKER
  }

  predicate Listed(pool: seq<string>, folder: string, n: nat) {
    exists k | 0 <= k < |pool| && k < n :: pool[k] == folder
  }

  ghost predicate Forgotten(before: map<string, Folder>, folder: string, retained: seq<Entry>) {
    DropOwner(before, folder).Some? && !Retained(retained, folder)
  }

  /** Gone, or at least empty, or on record as retired, so that any later cleanup takes it up again. */
  ghost predicate Expired(folders: map<string, Folder>, folder: string) {
    folder !in folders || folders[folder].files == map[] || DropOwner(folders, folder) == Some(true)
  }

  ghost predicate AllMarked(removed: seq<Entry>, course: Course, folder: string)
    requires course.Fits(removed)
  {
    forall j | 0 <= j < |removed| && removed[j].folder == folder :: WellMarked(course.trials[j].marking)
  }

  /** All entries of the folder may go, and nothing gets in the way of that. */
  ghost predicate NothingFails(before: map<string, Folder>, folder: string, removed: seq<Entry>, course: Course)
    requires course.Fits(removed)
  {
    && folder in before && OnlyAllowed(before[folder].files, folder)
    && (forall j | 0 <= j < |removed| && removed[j].folder == folder ::
          course.trials[j].marking.Written? && Smooth(course.trials[j].attempt, before[folder].files))
    && (forall k | 0 <= k < |course.pool| && k < MAX_SCAN && course.pool[k] == folder ::
          Smooth(course.scans[k], before[folder].files))
  }

  /** What became of a folder after the first `n` removed posts. */
  ghost predicate Removing(before: map<string, Folder>, now: map<string, Folder>, folder: string,
                           retained: seq<Entry>, removed: seq<Entry>, course: Course, n: nat)
    requires course.Fits(removed) && n <= |removed|
  {
    && (Entry(true, folder) !in removed[..n] ==> At(now, folder) == At(before, folder))
    && (Forgotten(before, folder, retained) && Entry(true, folder) in removed[..n] ==>
          && (AllMarked(removed, course, folder) ==> Expired(now, folder))
          && (NothingFails(before, folder, removed, course) ==> folder !in now))
  }

  /** What became of a folder after the first `n` names of the pool as well. */
  ghost predicate Scanning(before: map<string, Folder>, now: map<string, Folder>, folder: string,
                           retained: seq<Entry>, removed: seq<Entry>, course: Course, n: nat)
    requires course.Fits(removed)
  {
    && (Entry(true, folder) !in removed && !Listed(course.pool, folder, n) ==> At(now, folder) == At(before, folder))
    && (Forgotten(before, folder, retained) && AllMarked(removed, course, folder)
        && (Entry(true, folder) in removed || DropOwner(before, folder) == Some(true))
        ==> Expired(now, folder))
    && (Forgotten(before, folder, retained) && Entry(true, folder) in removed
        && NothingFails(before, folder, removed, course)
        ==> folder !in now)
    && (NothingFails(before, folder, removed, course) && Forgotten(before, folder, retained)
        && DropOwner(before, folder) == Some(true) && Listed(course.pool, folder, n)
        ==> folder !in now)
  }

  /** What a trial makes of a folder. */
  ghost predicate Tried(mid: map<string, Folder>, now: map<string, Folder>, folder: string, trial: Trial) {
    && folder in mid
    && (WellMarked(trial.marking) ==> Expired(now, folder))
    && (trial.marking.Written? && OnlyAllowed(mid[folder].files, folder) && Smooth(trial.attempt, mid[folder].files)
        ==> folder !in now)
  }

  /** What an attempt makes of a folder on record as retired. */
  ghost predicate Attempted(mid: map<string, Folder>, now: map<string, Folder>, folder: string, a: Attempt) {
    && folder in mid && Expired(now, folder)
    && (OnlyAllowed(mid[folder].files, folder) && Smooth(a, mid[folder].files) ==> folder !in now)
  }

  lemma TrialKeeps(before: map<string, Folder>, mid: map<string, Folder>, now: map<string, Folder>, folder: string,
                   retained: seq<Entry>, removed: seq<Entry>, course: Course, n: nat)
    requires course.Fits(removed) && n < |removed|
    requires Removing(before, mid, folder, retained, removed, course, n)
    requires var e := removed[n];
             if e.localDrop && !Retained(retained, e.folder) && DropOwner(mid, e.folder).Some?
             then Tried(mid, now, e.folder, course.trials[n]) && forall f | f != e.folder :: At(now, f) == At(mid, f)
             else now == mid
    ensures Removing(before, now, folder, retained, removed, course, n + 1)
  {
    hide OnlyAllowed, Retained, Smooth;
    var e := removed[n];
    assert removed[..n + 1] == removed[..n] + [e];
    if folder != e.folder {
      SameThere(mid, now, folder);
    } else if At(mid, folder) == At(before, folder) {
      SameThere(before, mid, folder);
    }
    hide DropOwner;
  }

  lemma AttemptKeeps(before: map<string, Folder>, mid: map<string, Folder>, now: map<string, Folder>, folder: string,
                     retained: seq<Entry>, removed: seq<Entry>, course: Course, n: nat)
    requires course.Fits(removed) && n < |course.pool| && n < MAX_SCAN
    requires Scanning(before, mid, folder, retained, removed, course, n)
    requires var f := course.pool[n];
             if !Retained(retained, f) && DropOwner(mid, f) == Some(true)
             then Attempted(mid, now, f, course.scans[n]) && forall g | g != f :: At(now, g) == At(mid, g)
             else now == mid
    ensures Scanning(before, now, folder, retained, removed, course, n + 1)
  {
    hide OnlyAllowed, Retained, Smooth;
    assert Listed(course.pool, folder, n + 1) <==> Listed(course.pool, folder, n) || course.pool[n] == folder;
    hide Listed;
    if folder != course.pool[n] {
      SameThere(mid, now, folder);
    } else if At(mid, folder) == At(before, folder) {
      SameThere(before, mid, folder);
    }
    hide DropOwner;
  }

  /**
   * What becomes of an owned folder that no post left on the board names: the drop
   * of a removed post goes on record as retired, and if nothing gets in the way it
   * is gone, like a retired one among the names looked at.
   */
  ghost predicate CleanedUp(before: map<string, Folder>, now: map<string, Folder>, folder: string,
                            removed: seq<Entry>, course: Course)
    requires course.Fits(removed)
  {
    && (AllMarked(removed, course, folder)
        && (Entry(true, folder) in removed || DropOwner(before, folder) == Some(true))
        ==> Expired(now, folder))
    && (NothingFails(before, folder, removed, course)
        && (Entry(true, folder) in removed
            || (DropOwner(before, folder) == Some(true) && Listed(course.pool, folder, MAX_SCAN)))
        ==> folder !in now)
  }

  lemma SafeAtFirst(before: map<string, Folder>, retained: seq<Entry>, removed: seq<Entry>)
    ensures Safe(before, before, retained, removed)
  {
  }

  lemma NothingRemovedYet(before: map<string, Folder>, folder: string,
                          retained: seq<Entry>, removed: seq<Entry>, course: Course)
    requires course.Fits(removed)
    ensures Removing(before, before, folder, retained, removed, course, 0)
  {
  }

  lemma ThenScan(before: map<string, Folder>, now: map<string, Folder>, folder: string,
                 retained: seq<Entry>, removed: seq<Entry>, course: Course)
    requires course.Fits(removed) && Removing(before, now, folder, retained, removed, course, |removed|)
    ensures Scanning(before, now, folder, retained, removed, course, 0)
  {
    hide Forgotten, AllMarked, NothingFails, Retained;
    assert removed[..|removed|] == removed;
    if At(now, folder) == At(before, folder) {
      SameThere(before, now, folder);
    }
    hide DropOwner;
  }

  lemma AllScanned(before: map<string, Folder>, now: map<string, Folder>, folder: string,
                   retained: seq<Entry>, removed: seq<Entry>, course: Course, n: nat)
    requires course.Fits(removed) && Scanning(before, now, folder, retained, removed, course, n)
    requires Forgotten(before, folder, retained) && (n >= |course.pool| || n >= MAX_SCAN)
    ensures CleanedUp(before, now, folder, removed, course)
  {
    hide Forgotten, AllMarked, NothingFails, Expired, DropOwner;
  }

  lemma SameThere(a: map<string, Folder>, b: map<string, Folder>, folder: string)
    requires At(a, folder) == At(b, folder)
    ensures folder in a <==> folder in b
    ensures folder in a ==> a[folder] == b[folder]
    ensures DropOwner(a, folder) == DropOwner(b, folder)
  {
  }

  // ----- The pool -----

  class DropPool {
    var plainRoot: bool                        // the pool itself is a directory and not a link
    var folders: map<string, Folder>

    /** Cleanup after a rename: first the drops of removed posts, then a bounded scan for leftovers. */
    method CleanupDrops(retained: seq<Entry>, removed: seq<Entry>, course: Course)
      requires course.Fits(removed)
      modifies this`folders
      ensures Safe(old(folders), folders, retained, removed)
      ensures !plainRoot ==> folders == old(folders)
      ensures plainRoot ==>
                forall f | Forgotten(old(folders), f, retained) :: CleanedUp(old(folders), folders, f, removed, course)
    {
      hide Justified, Cleaned, DropOwner, Retained, Expired, AllMarked, NothingFails, Forgotten, CleanedUp;
      hide Tried, Attempted, Removing, Scanning, Listed, Safe, At, SameMarker, Smooth, OnlyAllowed;
      ghost var before := folders;
      SafeAtFirst(before, retained, removed);
      if !plainRoot {
        return;
      }
      forall f ensures Removing(before, before, f, retained, removed, course, 0) {
        NothingRemovedYet(before, f, retained, removed, course);
      }
      for i := 0 to |removed|
        invariant Safe(before, folders, retained, removed)
        invariant forall f :: Removing(before, folders, f, retained, removed, course, i)
      {
        var entry := removed[i];
        ghost var mid := folders;
        if entry.localDrop && !Retained(retained, entry.folder) && DropOwner(folders, entry.folder).Some? {
          assert entry == Entry(true, entry.folder);
          OwnedIsThere(folders, entry.folder);
          RetireAndRemove(entry.folder, course.trials[i]);
          SafeStep(before, mid, folders, entry.folder, retained, removed);
        }
        ghost var next := i + 1;
        forall f ensures Removing(before, folders, f, retained, removed, course, next) {
          TrialKeeps(before, mid, folders, f, retained, removed, course, i);
        }
      }
      forall f ensures Scanning(before, folders, f, retained, removed, course, 0) {
        ThenScan(before, folders, f, retained, removed, course);
      }
      var i := 0;
      while i < |course.pool| && i < MAX_SCAN
        invariant i <= |course.pool| && i <= MAX_SCAN
        invariant Safe(before, folders, retained, removed)
        invariant forall f :: Scanning(before, folders, f, retained, removed, course, i)
      {
        var folder := course.pool[i];
        ghost var mid := folders;
        if !Retained(retained, folder) && DropOwner(folders, folder) == Some(true) {
          OwnedIsThere(folders, folder);
          var ok := RemoveOwnedDrop(folder, course.scans[i]);
          SafeStep(before, mid, folders, folder, retained, removed);
          assert Attempted(mid, folders, folder, course.scans[i]) by {
            StillRetired(mid, folders, folder, course.scans[i]);
          }
        }
        i := i + 1;
        forall f ensures Scanning(before, folders, f, retained, removed, course, i) {
          AttemptKeeps(before, mid, folders, f, retained, removed, course, i - 1);
        }
      }
      forall f | Forgotten(before, f, retained) ensures CleanedUp(before, folders, f, removed, course) {
        AllScanned(before, folders, f, retained, removed, course, i);
      }
    }

    /** Records retirement before anything is deleted; a failed write may spoil the marker. */
    method RetireAndRemove(folder: string, trial: Trial)
      requires DropOwner(folders, folder).Some?
      modifies this`folders
      ensures folders.Keys <= old(folders).Keys
      ensures forall f | f != folder :: At(folders, f) == At(old(folders), f)
      ensures Cleaned(folder, old(folders)[folder], At(folders, folder))
      ensures Tried(old(folders), folders, folder, trial)
    {
      OwnedIsThere(folders, folder);
      ghost var before := folders;
      var files := folders[folder].files;
      var body := match trial.marking
        case Written(_) => files[DROP_MARKER].body.(retired := true)
        case Failed => files[DROP_MARKER].body
        case Spoilt(_) => Other;
      var size := if trial.marking.Failed? then files[DROP_MARKER].size else trial.marking.size;
      var marker := files[DROP_MARKER].(size := size, body := body);
      folders := folders[folder := folders[folder].(files := files[DROP_MARKER := marker])];
      if !trial.marking.Written? {
        return;
      }
      ghost var marked := folders;
      var ok := RemoveOwnedDrop(folder, trial.attempt);
      CleanedTwice(folder, before[folder], marked[folder], At(folders, folder));
      MarkedAndTried(before, marked, folders, folder, trial, size);
    }

    /** Deletes an owned, retired folder, unless something is wrong with it. */
    method RemoveOwnedDrop(folder: string, attempt: Attempt) returns (ok: bool)
      requires folder in folders && MarkedRetired(folders[folder].files)
      modifies this`folders
      ensures folders.Keys <= old(folders).Keys
      ensures forall f | f != folder :: At(folders, f) == At(old(folders), f)
      ensures Cleaned(folder, old(folders)[folder], At(folders, folder))
      ensures ok <==> folder !in folders
      ensures !OnlyAllowed(old(folders)[folder].files, folder) ==> folders == old(folders)
      ensures OnlyAllowed(old(folders)[folder].files, folder) && Smooth(attempt, old(folders)[folder].files) ==> ok
      ensures folder in folders ==> folders[folder].files == map[] || SameMarker(old(folders)[folder], folders[folder])
    {
      var files := folders[folder].files;
      if !IsListing(attempt.listing, files) {
        return false;                          // the directory could not be read
      }
      var victims := Inspect(files, folder, attempt.listing);
      if victims.None? {
        return false;
      }
      var left := Delete(folder, victims.value, attempt.locked);
      if left {
        return false;
      }
      if attempt.markerLocked {
        return false;
      }
      folders := folders[folder := folders[folder].(files := map[])];
      if attempt.busy {
        return false;
      }
      folders := folders - {folder};
      return true;
    }

    /** Deletes files one by one and stops at the first that is in use. */
    method Delete(folder: string, victims: seq<string>, locked: set<string>) returns (stopped: bool)
      requires folder in folders
      requires forall name <- victims :: name in folders[folder].files && name != DROP_MARKER
      requires forall i, j | 0 <= i < j < |victims| :: victims[i] != victims[j]
      modifies this`folders
      ensures folders.Keys == old(folders).Keys
      ensures forall f | f in folders && f != folder :: folders[f] == old(folders)[f]
      ensures folders[folder].plain == old(folders)[folder].plain
      ensures Lost(old(folders)[folder].files, folders[folder].files)
      ensures forall name | name in old(folders)[folder].files :: name in folders[folder].files || name in victims
      ensures !stopped ==> folders[folder].files.Keys !! Elements(victims)
      ensures stopped <==> exists name <- victims :: name in locked
    {
      var files := folders[folder].files;
      var left := files;
      for k := 0 to |victims|
        invariant Lost(files, left)
        invariant left.Keys == files.Keys - Elements(victims[..k])
        invariant folders == old(folders)[folder := old(folders)[folder].(files := left)]
        invariant forall name <- victims[..k] :: name !in locked
      {
        if victims[k] in locked {
          return true;
        }
        left := left - {victims[k]};
        folders := folders[folder := folders[folder].(files := left)];
        assert victims[..k + 1] == victims[..k] + [victims[k]];
      }
      assert victims[..|victims|] == victims;
      return false;
    }
  }

  ghost predicate SameMarker(before: Folder, after: Folder) {
    after.plain == before.plain && DROP_MARKER in before.files && DROP_MARKER in after.files
    && after.files[DROP_MARKER] == before.files[DROP_MARKER]
  }

  lemma StillRetired(mid: map<string, Folder>, now: map<string, Folder>, folder: string, a: Attempt)
    requires folder in mid && DropOwner(mid, folder) == Some(true)
    requires folder in now ==> now[folder].files == map[] || SameMarker(mid[folder], now[folder])
    requires OnlyAllowed(mid[folder].files, folder) && Smooth(a, mid[folder].files) ==> folder !in now
    ensures Attempted(mid, now, folder, a)
  {
    hide OnlyAllowed, Smooth;
  }

  lemma MarkedAndTried(before: map<string, Folder>, marked: map<string, Folder>, now: map<string, Folder>,
                       folder: string, trial: Trial, size: nat)
    requires DropOwner(before, folder).Some? && trial.marking == Written(size)
    requires folder in before && DROP_MARKER in before[folder].files && before[folder].files[DROP_MARKER].body.Marker?
    requires var m := before[folder].files[DROP_MARKER];
             marked == before[folder := before[folder].(files :=
               before[folder].files[DROP_MARKER := m.(size := size, body := m.body.(retired := true))])]
    requires folder in now ==> now[folder].files == map[] || SameMarker(marked[folder], now[folder])
    requires OnlyAllowed(marked[folder].files, folder) && Smooth(trial.attempt, marked[folder].files) ==> folder !in now
    ensures Tried(before, now, folder, trial)
  {
    hide OnlyAllowed, IsListing;
    var files, after := before[folder].files, marked[folder].files;
    assert after.Keys == files.Keys;
    AllowedIgnoresMarker(files, after, folder);
    SameListing(trial.attempt.listing, files, after);
  }

  lemma SameListing(listing: seq<string>, before: map<string, File>, after: map<string, File>)
    requires before.Keys == after.Keys
    ensures IsListing(listing, before) <==> IsListing(listing, after)
  {
    assert forall name: string :: name in before <==> name in after;
  }

  ghost predicate Lost(before: map<string, File>, after: map<string, File>) {
    after.Keys <= before.Keys && forall name <- after.Keys :: after[name] == before[name]
  }

  // ----- Over whole runs -----

  /** One writer's cleanup, or another process creating or changing one folder. */
  datatype PoolStep = Cleanup(retained: seq<Entry>, removed: seq<Entry>, course: Course) | Stage(folder: string)

  ghost predicate Follows(before: map<string, Folder>, step: PoolStep, after: map<string, Folder>) {
    match step
    case Cleanup(retained, removed, course) =>
      course.Fits(removed) && Safe(before, after, retained, removed)
      && forall f | Forgotten(before, f, retained) :: CleanedUp(before, after, f, removed, course)
    case Stage(folder) => forall f | f != folder :: At(after, f) == At(before, f)
  }

  ghost predicate PoolRun(states: seq<map<string, Folder>>, steps: seq<PoolStep>) {
    |states| == |steps| + 1 && forall i | 0 <= i < |steps| :: Follows(states[i], steps[i], states[i + 1])
  }

  ghost predicate TakesOff(step: PoolStep, folder: string) {
    step.Cleanup? && !Retained(step.retained, folder) && Entry(true, folder) in step.removed
  }

  /** Some cleanup of the run took a post off the board that named the folder, and kept none that does. */
  ghost predicate TakenOff(steps: seq<PoolStep>, folder: string) {
    exists i | 0 <= i < |steps| :: TakesOff(steps[i], folder)
  }

  /** The folder is as it was, or it was owned, expired, in order, and was cleaned. */
  ghost predicate Accounted(first: map<string, Folder>, now: map<string, Folder>, folder: string, takenOff: bool) {
    || At(now, folder) == At(first, folder)
    || (&& DropOwner(first, folder).Some?
        && (DropOwner(first, folder).value || takenOff)
        && Cleaned(folder, first[folder], At(now, folder)))
  }

  lemma Unchanged(first: map<string, Folder>, folder: string, takenOff: bool)
    ensures Accounted(first, first, folder, takenOff)
  {
  }

  /** Whatever all cleanups together did to a folder is accounted for. */
  lemma {:induction false} OnlyExpiredDropsAreTouched(states: seq<map<string, Folder>>,
                                                   steps: seq<PoolStep>, folder: string)
    requires PoolRun(states, steps)
    requires forall i | 0 <= i < |steps| :: steps[i] != Stage(folder)
    ensures Accounted(states[0], states[|steps|], folder, TakenOff(steps, folder))
  {
    hide Accounted, TakesOff, Follows;
    var n := |steps|;
    if n > 0 {
      var early := steps[..n - 1];
      assert forall i | 0 <= i < n - 1 :: early[i] == steps[i];
      assert PoolRun(states[..n], early);
      OnlyExpiredDropsAreTouched(states[..n], early, folder);
      OneMoreStep(states[0], states[n - 1], states[n], steps[n - 1], folder, TakenOff(early, folder));
    } else {
      Unchanged(states[0], folder, TakenOff(steps, folder));
    }
  }

  lemma OneMoreStep(first: map<string, Folder>, mid: map<string, Folder>, last: map<string, Folder>, step: PoolStep,
                    folder: string, takenOff: bool)
    requires Follows(mid, step, last) && step != Stage(folder)
    requires Accounted(first, mid, folder, takenOff)
    ensures Accounted(first, last, folder, takenOff || TakesOff(step, folder))
  {
    hide OnlyAllowed, Allowed, Retained;
    if At(last, folder) != At(mid, folder) && At(mid, folder) != At(first, folder) {
      OwnedIsThere(mid, folder);
      CleanedTwice(folder, first[folder], mid[folder], At(last, folder));
    }
  }

  /** A drop that is staged, or on the board, survives the cleanups of every other writer. */
  lemma StagedDropSurvives(states: seq<map<string, Folder>>, steps: seq<PoolStep>, folder: string)
    requires PoolRun(states, steps)
    requires forall i | 0 <= i < |steps| :: steps[i] != Stage(folder)
    requires DropOwner(states[0], folder) != Some(true)
    requires forall i | 0 <= i < |steps| && steps[i].Cleanup? ::
               Retained(steps[i].retained, folder) || Entry(true, folder) !in steps[i].removed
    ensures At(states[|steps|], folder) == At(states[0], folder)
  {
    OnlyExpiredDropsAreTouched(states, steps, folder);
  }

  /** The step leaves the folder to the cleanups: it is not staged anew, and no post kept names it. */
  ghost predicate LeavesAlone(step: PoolStep, folder: string) {
    if step.Cleanup? then step.course.Fits(step.removed) && !Retained(step.retained, folder)
                          && AllMarked(step.removed, step.course, folder)
    else step.folder != folder
  }

  lemma ExpiredStays(before: map<string, Folder>, step: PoolStep, after: map<string, Folder>, folder: string)
    requires Follows(before, step, after) && LeavesAlone(step, folder) && Expired(before, folder)
    ensures Expired(after, folder)
  {
    hide AllMarked, NothingFails, Retained, OnlyAllowed;
    if step.Cleanup? && DropOwner(before, folder) == Some(true) {
      assert CleanedUp(before, after, folder, step.removed, step.course);
    } else {
      SameThere(before, after, folder);
    }
  }

  /**
   * The drop of a post taken off the board ends: once it is on record as retired,
   * the first cleanup that lists it and meets no obstacle leaves nothing of it.
   */
  lemma {:induction false} RetiredDropGoes(states: seq<map<string, Folder>>, steps: seq<PoolStep>, folder: string,
                                           i: nat, j: nat)
    requires PoolRun(states, steps) && i < j < |steps|
    requires steps[i].Cleanup? && Entry(true, folder) in steps[i].removed
    requires Forgotten(states[i], folder, steps[i].retained)
    requires forall k | i <= k <= j :: LeavesAlone(steps[k], folder)
    requires steps[j].Cleanup? && Listed(steps[j].course.pool, folder, MAX_SCAN)
    requires steps[j].course.Fits(steps[j].removed)
             && (DropOwner(states[j], folder) == Some(true) ==>
                   NothingFails(states[j], folder, steps[j].removed, steps[j].course))
    ensures folder !in states[j + 1] || states[j + 1][folder].files == map[]
  {
    hide AllMarked, NothingFails, Retained, OnlyAllowed, Listed;
    assert CleanedUp(states[i], states[i + 1], folder, steps[i].removed, steps[i].course);
    ExpiredUntil(states, steps, folder, i + 1, j);
    if DropOwner(states[j], folder) == Some(true) {
      assert CleanedUp(states[j], states[j + 1], folder, steps[j].removed, steps[j].course);
    } else {
      EmptyStays(states[j], steps[j], states[j + 1], folder);
    }
  }

  lemma {:induction false} ExpiredUntil(states: seq<map<string, Folder>>, steps: seq<PoolStep>, folder: string,
                                        i: nat, j: nat)
    requires PoolRun(states, steps) && i <= j <= |steps|
    requires Expired(states[i], folder) && forall k | i <= k < j :: LeavesAlone(steps[k], folder)
    ensures Expired(states[j], folder)
    decreases j
  {
    hide Expired, LeavesAlone, Follows;
    if i < j {
      ExpiredUntil(states, steps, folder, i, j - 1);
      ExpiredStays(states[j - 1], steps[j - 1], states[j], folder);
    }
  }

  lemma EmptyStays(before: map<string, Folder>, step: PoolStep, after: map<string, Folder>, folder: string)
    requires Follows(before, step, after) && LeavesAlone(step, folder)
    requires folder in before ==> before[folder].files == map[]
    ensures folder in after ==> after[folder].files == map[]
  {
    hide AllMarked, NothingFails, Retained, OnlyAllowed;
    assert DropOwner(before, folder).None?;
    SameThere(before, after, folder);
  }
}
