/** Delimited object listing: splitFolderListing and paginateDelimitedListing of
    internal/api/bucket_handlers.go. */
module Listing {
  import opened Strings

  /** The part of metadata.ObjectRecord a listing shows; `etag` stands for the
      fields that are carried along. */
  datatype ObjectRecord = ObjectRecord(key: string, etag: string)

  function KeyOf(o: ObjectRecord): string { o.key }

  //// One level below a prefix

  /** Objects strictly below the prefix. */
  predicate Below(prefix: string, key: string) {
    prefix < key
  }

  predicate Folded(prefix: string, key: string) {
    Below(prefix, key) && '/' in key[|prefix|..]
  }

  /** The folder an object is folded into: up to and including the next slash. */
  function FolderOf(prefix: string, key: string): (f: string)
    requires Folded(prefix, key)
    ensures prefix < f <= key && f[|f| - 1] == '/'
    ensures '/' !in f[|prefix|..|f| - 1]
  {
    var rest := key[|prefix|..];
    var i := IndexByte(rest, '/');
    assert key == prefix + rest;
    assert (prefix + rest[..i + 1])[|prefix|..|prefix| + i] == rest[..i];
    prefix + rest[..i + 1]
  }

  function FolderSet(objs: seq<ObjectRecord>, prefix: string): set<string> {
    set o | o in objs && Folded(prefix, o.key) :: FolderOf(prefix, o.key)
  }

  predicate IsFile(prefix: string, key: string) {
    Below(prefix, key) && '/' !in key[|prefix|..]
  }

  function FileList(objs: seq<ObjectRecord>, prefix: string): seq<ObjectRecord> {
    if objs == [] then []
    else (if IsFile(prefix, objs[0].key) then [objs[0]] else []) + FileList(objs[1..], prefix)
  }

  function Keys(objs: seq<ObjectRecord>): seq<string> {
    if objs == [] then [] else [objs[0].key] + Keys(objs[1..])
  }

  /** Every entry of the level, folders and files together, in byte order. */
  ghost function Entries(objs: seq<ObjectRecord>, prefix: string): seq<string> {
    Sort(SortedSet(FolderSet(objs, prefix)) + Keys(FileList(objs, prefix)))
  }

  //// One page

  datatype Page = Page(folders: seq<string>, files: seq<ObjectRecord>, truncated: bool, nextMarker: string)

  /** How many leading entries are not after the marker. */
  function SkipTo(keys: seq<string>, marker: string): (n: nat)
    ensures n <= |keys|
  {
    if keys == [] || Less(marker, keys[0]) then 0 else 1 + SkipTo(keys[1..], marker)
  }

  function Start(keys: seq<string>, marker: string): (n: nat)
    ensures n <= |keys|
  {
    if marker == "" then 0 else SkipTo(keys, marker)
  }

  function PageSize(maxKeys: int): (n: nat)
    ensures n > 0
  {
    if maxKeys <= 0 then 100 else maxKeys
  }

  function PageKeys(keys: seq<string>, marker: string, maxKeys: int): seq<string> {
    var start, n := Start(keys, marker), PageSize(maxKeys);
    if |keys| - start > n then keys[start..start + n] else keys[start..]
  }

  function FileMap(files: seq<ObjectRecord>): map<string, ObjectRecord> {
    if files == [] then map[]
    else
      var last := files[|files| - 1];
      FileMap(files[..|files| - 1])[last.key := last]
  }

  function Inside(keys: seq<string>, fs: set<string>): seq<string> {
    if keys == [] then [] else (if keys[0] in fs then [keys[0]] else []) + Inside(keys[1..], fs)
  }

  function FilesAt(keys: seq<string>, fs: set<string>, fm: map<string, ObjectRecord>): seq<ObjectRecord> {
    if keys == [] then []
    else (if keys[0] !in fs && keys[0] in fm then [fm[keys[0]]] else []) + FilesAt(keys[1..], fs, fm)
  }

  ghost function PageAt(objs: seq<ObjectRecord>, prefix: string, marker: string, maxKeys: int): Page {
    var keys := Entries(objs, prefix);
    var page := PageKeys(keys, marker, maxKeys);
    var truncated := |keys| - Start(keys, marker) > PageSize(maxKeys);
    Page(Inside(page, FolderSet(objs, prefix)),
         FilesAt(page, FolderSet(objs, prefix), FileMap(FileList(objs, prefix))),
         truncated,
         if truncated then page[|page| - 1] else "")
  }

  //// The code

  /** splitFolderListing. */
  method SplitFolderListing(objs: seq<ObjectRecord>, prefix: string)
    returns (folders: seq<string>, files: seq<ObjectRecord>)
    ensures folders == SortedSet(FolderSet(objs, prefix))
    ensures files == FileList(objs, prefix)
  {
    hide SortBy, FolderOf, Folded, IsFile, FolderSet, FileList;
    var seen: set<string> := {};
    folders, files := [], [];
    var i := 0;
    TakeNone(objs, prefix);
    while i < |objs|
      invariant 0 <= i <= |objs|
      invariant seen == FolderSet(objs[..i], prefix)
      invariant multiset(folders) == multiset(seen)
      invariant files == FileList(objs[..i], prefix)
    {
      TakeOne(objs, prefix, i);
      seen, folders, files := Place(objs[i], prefix, seen, folders, files);
      i := i + 1;
    }
    assert objs[..|objs|] == objs;
    KeysCanonical(seen, folders);
    folders := Sort(folders);
  }

  lemma TakeNone(objs: seq<ObjectRecord>, prefix: string)
    ensures FolderSet(objs[..0], prefix) == {} && FileList(objs[..0], prefix) == []
  {
  }

  /** The loop body: one object becomes a file, a new folder, or nothing. */
  method Place(o: ObjectRecord, prefix: string, seen0: set<string>, folders0: seq<string>, files0: seq<ObjectRecord>)
    returns (seen: set<string>, folders: seq<string>, files: seq<ObjectRecord>)
    requires multiset(folders0) == multiset(seen0)
    ensures seen == seen0 + (if Folded(prefix, o.key) then {FolderOf(prefix, o.key)} else {})
    ensures multiset(folders) == multiset(seen)
    ensures files == files0 + (if IsFile(prefix, o.key) then [o] else [])
  {
    seen, folders, files := seen0, folders0, files0;
    var rest := o.key;
    if prefix != "" {
      if !(prefix <= rest) { return; }
      rest := rest[|prefix|..];
    }
    if rest == "" { return; }
    assert rest == o.key[|prefix|..];
    var idx := IndexByte(rest, '/');
    if idx >= 0 {
      var folder := prefix + rest[..idx + 1];
      if folder !in seen {
        assert multiset(seen + {folder}) == multiset(seen) + multiset{folder};
        seen := seen + {folder};
        folders := folders + [folder];
      }
      return;
    }
    files := files + [o];
  }

  lemma TakeOne(objs: seq<ObjectRecord>, prefix: string, i: nat)
    requires i < |objs|
    ensures var key := objs[i].key;
            && FolderSet(objs[..i + 1], prefix)
               == FolderSet(objs[..i], prefix) + (if Folded(prefix, key) then {FolderOf(prefix, key)} else {})
            && FileList(objs[..i + 1], prefix)
               == FileList(objs[..i], prefix) + (if IsFile(prefix, key) then [objs[i]] else [])
  {
    hide FolderOf, Folded, IsFile;
    assert objs[..i + 1] == objs[..i] + [objs[i]];
    FileListConcat(objs[..i], [objs[i]], prefix);
    assert [objs[i]][1..] == [];
  }

  lemma {:induction false} FileListConcat(a: seq<ObjectRecord>, b: seq<ObjectRecord>, prefix: string)
    ensures FileList(a + b, prefix) == FileList(a, prefix) + FileList(b, prefix)
  {
    hide IsFile;
    if a == [] {
      assert a + b == b;
    } else {
      assert (a + b)[1..] == a[1..] + b;
      FileListConcat(a[1..], b, prefix);
    }
  }

  /** paginateDelimitedListing. */
  method PaginateDelimitedListing(objs: seq<ObjectRecord>, prefix: string, startAfter: string, maxKeys: int)
    returns (page: Page)
    ensures page == PageAt(objs, prefix, startAfter, maxKeys)
  {
    hide SortBy, FolderSet, FileList, Less, FileMap, SortedSet, Inside, FilesAt, SkipTo, Keys;
    var allFolders, allFiles := SplitFolderListing(objs, prefix);
    var folderSet := AsSet(allFolders);
    SortedSetFacts(FolderSet(objs, prefix));
    assert folderSet == FolderSet(objs, prefix);
    var fileMap := AsMap(allFiles);
    var fileKeys := KeyList(allFiles);
    var keys := Sort(allFolders + fileKeys);
    var start := FindStart(keys, startAfter);
    var pageKeys := keys[start..];
    var size := if maxKeys <= 0 then 100 else maxKeys;
    var truncated := |pageKeys| > size;
    if truncated {
      pageKeys := pageKeys[..size];
      assert keys[start..][..size] == keys[start..start + size];
    }
    var folders, files := Collect(pageKeys, folderSet, fileMap);
    var next := "";
    if truncated && |pageKeys| > 0 {
      next := pageKeys[|pageKeys| - 1];
    }
    page := Page(folders, files, truncated, next);
  }

  method AsSet(s: seq<string>) returns (r: set<string>)
    ensures forall k :: k in r <==> k in s
  {
    r := {};
    var i := 0;
    while i < |s|
      invariant 0 <= i <= |s|
      invariant forall k :: k in r <==> k in s[..i]
    {
      r := r + {s[i]};
      i := i + 1;
    }
  }

  method AsMap(files: seq<ObjectRecord>) returns (m: map<string, ObjectRecord>)
    ensures m == FileMap(files)
  {
    m := map[];
    var i := 0;
    while i < |files|
      invariant 0 <= i <= |files|
      invariant m == FileMap(files[..i])
    {
      assert files[..i + 1][..i] == files[..i];
      m := m[files[i].key := files[i]];
      i := i + 1;
    }
    assert files[..|files|] == files;
  }

  method KeyList(files: seq<ObjectRecord>) returns (keys: seq<string>)
    ensures keys == Keys(files)
  {
    keys := [];
    var i := 0;
    while i < |files|
      invariant 0 <= i <= |files|
      invariant keys + Keys(files[i..]) == Keys(files)
    {
      assert files[i..][1..] == files[i + 1..];
      ghost var rest := Keys(files[i + 1..]);
      assert keys + ([files[i].key] + rest) == keys + [files[i].key] + rest;
      keys := keys + [files[i].key];
      i := i + 1;
    }
  }

  /** The scan for the first key after the marker. */
  method FindStart(keys: seq<string>, startAfter: string) returns (start: nat)
    ensures start == Start(keys, startAfter)
  {
    start := 0;
    if startAfter != "" {
      var i := 0;
      while i < |keys|
        invariant 0 <= i <= |keys|
        invariant SkipTo(keys, startAfter) == i + SkipTo(keys[i..], startAfter)
        invariant start == if i == |keys| then |keys| else 0
      {
        var k := keys[i];
        assert keys[i..][1..] == keys[i + 1..];
        if Less(startAfter, k) {
          start := i;
          break;
        }
        if i == |keys| - 1 {
          start := |keys|;
        }
        i := i + 1;
      }
    }
  }

  method Collect(keys: seq<string>, folderSet: set<string>, fileMap: map<string, ObjectRecord>)
    returns (folders: seq<string>, files: seq<ObjectRecord>)
    ensures folders == Inside(keys, folderSet)
    ensures files == FilesAt(keys, folderSet, fileMap)
  {
    folders, files := [], [];
    var i := 0;
    while i < |keys|
      invariant 0 <= i <= |keys|
      invariant folders + Inside(keys[i..], folderSet) == Inside(keys, folderSet)
      invariant files + FilesAt(keys[i..], folderSet, fileMap) == FilesAt(keys, folderSet, fileMap)
    {
      var k := keys[i];
      assert keys[i..][1..] == keys[i + 1..];
      if k in folderSet {
        folders := folders + [k];
      } else if k in fileMap {
        files := files + [fileMap[k]];
      }
      i := i + 1;
    }
  }
}
