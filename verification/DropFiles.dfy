// Which folders of the pool count as owned drops, and which files cleanup may
// delete from them, spelled out.

module DropFiles {
  import opened Basics
  import opened Drops

  /** A folder is an owned drop exactly if its marker says so under its own name. */
  lemma OwnedExactly(folders: map<string, Folder>, folder: string, retired: bool)
    ensures DropOwner(folders, folder) == Some(retired) <==>
              && 1 <= |folder| <= 100
              && (forall c <- folder ::
                    '0' <= c <= '9' || 'a' <= c <= 'z' || 'A' <= c <= 'Z' || c == '-' || c == '_')
              && folder in folders && folders[folder].plain
              && ".context-drop.json" in folders[folder].files
              && exists size: nat | size <= 2048 ::
                   folders[folder].files[".context-drop.json"] == File(true, size, Marker(true, folder, retired))
  {
    if DropOwner(folders, folder) == Some(retired) {
      var marker := folders[folder].files[DROP_MARKER];
      assert marker == File(true, marker.size, Marker(true, folder, retired));
    }
  }

  /** An attachment: a plain name of at most 240 characters. */
  predicate AttachmentName(name: string) {
    11 <= |name| <= 240 && name[..11] == "attachment-"
    && forall c <- name :: c as int >= 32 && c as int != 127 && c != '/' && c != '\\' && c != ':'
  }

  /** A manifest that can be trusted, naming these attachments. */
  ghost predicate Names(input: File, folder: string, owned: seq<string>) {
    && input.regular && input.size <= 0x20_0000 && |owned| <= 128
    && input.body == Manifest(true, folder, Some(Wrapped(owned)))
    && forall name <- owned :: AttachmentName(name)
  }

  function Wrapped(owned: seq<string>): (r: seq<Option<string>>)
    ensures |r| == |owned| && forall i | 0 <= i < |r| :: r[i] == Some(owned[i])
  {
    seq(|owned|, i requires 0 <= i < |owned| => Some(owned[i]))
  }

  predicate FixedName(name: string) {
    || name == ".context-drop.json" || name == "README.md" || name == "message.md"
    || name == "clipboard.png" || name == "clipboard.bmp" || name == ".input.json"
  }

  /** What may be deleted: regular files under the fixed names, and the attachments of the manifest. */
  ghost predicate MayGo(files: map<string, File>, owned: seq<string>) {
    forall name <- files.Keys :: files[name].regular && (FixedName(name) || name in owned)
  }

  lemma OwnedNameExactly(name: string)
    ensures OwnedName(name) <==> AttachmentName(name)
  {
    if OwnedName(name) {
      assert name[0..11] == "attachment-";
    }
    if AttachmentName(name) {
      assert name[0..11] == "attachment-";
    }
  }

  lemma FixedNames(name: string)
    ensures name in FILES <==> FixedName(name)
  {
  }

  lemma AllowedWithManifest(files: map<string, File>, folder: string, owned: seq<string>)
    requires ".input.json" in files && Names(files[".input.json"], folder, owned)
    ensures Allowed(files, folder) == Some(FILES + owned)
  {
    hide OwnedName, FILES;
    var wrapped := Wrapped(owned);
    forall o <- wrapped ensures o.Some? && OwnedName(o.value) {
      var i :| 0 <= i < |wrapped| && wrapped[i] == o;
      assert owned[i] in owned;
      OwnedNameExactly(owned[i]);
    }
    var listed := seq(|wrapped|, i requires 0 <= i < |wrapped| && wrapped[i].Some? => wrapped[i].value);
    assert listed == owned;
  }

  lemma ManifestOfAllowed(files: map<string, File>, folder: string) returns (owned: seq<string>)
    requires ".input.json" in files && Allowed(files, folder).Some?
    ensures Names(files[".input.json"], folder, owned)
  {
    hide OwnedName, FILES;
    var listed := files[INPUT_MANIFEST].body.ownedFiles.value;
    owned := seq(|listed|, i requires 0 <= i < |listed| && listed[i].Some? => listed[i].value);
    forall i | 0 <= i < |listed| ensures listed[i].Some? && AttachmentName(owned[i]) {
      assert listed[i] in listed;
      OwnedNameExactly(listed[i].value);
    }
    assert Wrapped(owned) == listed;
    assert files[INPUT_MANIFEST].body == Manifest(true, folder, Some(Wrapped(owned)));
  }

  /** A folder may be emptied exactly if nothing strange is in it and its manifest, if it has one, is in order. */
  lemma MayGoExactly(files: map<string, File>, folder: string)
    ensures OnlyAllowed(files, folder) <==>
              if ".input.json" in files
              then exists owned | Names(files[".input.json"], folder, owned) :: MayGo(files, owned)
              else MayGo(files, [])
  {
    forall name: string ensures name in FILES <==> FixedName(name) {
      FixedNames(name);
    }
    hide FixedName, FILES, Names;
    if ".input.json" !in files {
      assert Allowed(files, folder) == Some(FILES);
    } else {
      if OnlyAllowed(files, folder) {
        var owned := ManifestOfAllowed(files, folder);
        AllowedWithManifest(files, folder, owned);
        hide Allowed;
        assert MayGo(files, owned);
      }
      if owned: seq<string> :| Names(files[".input.json"], folder, owned) && MayGo(files, owned) {
        AllowedWithManifest(files, folder, owned);
      }
    }
  }

  /** Posts retain the folders they name, whatever the case of the letters. */
  lemma RetainedIgnoresCase(retained: seq<Entry>, folder: string)
    ensures Retained(retained, folder) <==> exists e <- retained :: InLowerCase(e.folder) == InLowerCase(folder)
  {
    forall e <- retained ensures SameName(e.folder, folder) <==> InLowerCase(e.folder) == InLowerCase(folder) {
      SameNameExactly(e.folder, folder);
    }
  }

  function InLowerCase(s: string): (r: string)
    ensures |r| == |s| && forall i | 0 <= i < |s| :: r[i] == if 'A' <= s[i] <= 'Z' then s[i] + (32 as char) else s[i]
  {
    seq(|s|, i requires 0 <= i < |s| => if 'A' <= s[i] <= 'Z' then s[i] + (32 as char) else s[i])
  }

  lemma SameNameExactly(a: string, b: string)
    ensures SameName(a, b) <==> InLowerCase(a) == InLowerCase(b)
  {
    assert forall c: char :: LowerChar(c) == if 'A' <= c <= 'Z' then c + (32 as char) else c;
    if InLowerCase(a) == InLowerCase(b) {
      forall i | 0 <= i < |a| ensures LowerChar(a[i]) == LowerChar(b[i]) {
        assert InLowerCase(a)[i] == InLowerCase(b)[i];
      }
    }
  }

  // ----- Listings -----

  /** A directory may be listed in any order, with every entry once. */
  lemma ListingExactly(listing: seq<string>, files: map<string, File>)
    ensures IsListing(listing, files) <==> multiset(listing) == multiset(files.Keys)
  {
    forall name ensures multiset(files.Keys)[name] == if name in files then 1 else 0 {
    }
    if IsListing(listing, files) {
      forall name ensures multiset(listing)[name] == multiset(files.Keys)[name] {
        OnceAtMost(listing, name);
      }
    }
    if multiset(listing) == multiset(files.Keys) {
      forall i, j | 0 <= i < j < |listing| ensures listing[i] != listing[j] {
        if listing[i] == listing[j] {
          TwiceCounts(listing, i, j);
        }
      }
      forall name <- listing ensures name in files {
        assert name in multiset(listing);
      }
      forall name <- files.Keys ensures name in listing {
        assert name in multiset(files.Keys);
      }
    }
  }

  lemma {:induction false} OnceAtMost(listing: seq<string>, name: string)
    requires forall i, j | 0 <= i < j < |listing| :: listing[i] != listing[j]
    ensures multiset(listing)[name] == if name in listing then 1 else 0
  {
    if listing != [] {
      var front, last := listing[..|listing| - 1], listing[|listing| - 1];
      assert listing == front + [last];
      OnceAtMost(front, name);
    }
  }

  lemma TwiceCounts(listing: seq<string>, i: nat, j: nat)
    requires i < j < |listing| && listing[i] == listing[j]
    ensures multiset(listing)[listing[i]] >= 2
  {
    var front, back := listing[..j], listing[j..];
    assert listing == front + back && front[i] == listing[i] && back[0] == listing[j];
    assert listing[i] in multiset(front) && listing[i] in multiset(back);
  }
}
