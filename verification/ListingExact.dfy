/** What one page shows, from any marker: stated by the entries of the level alone. */
module ListingExact {
  import opened Strings
  import opened Listing
  import opened ListingTheorems

  /** Some object lies in the folder `f`, directly below the prefix. */
  ghost predicate FolderEntry(objs: seq<ObjectRecord>, prefix: string, f: string) {
    prefix < f && f[|f| - 1] == '/' && '/' !in f[|prefix|..|f| - 1] && exists o :: o in objs && f <= o.key
  }

  /** The object itself lies directly below the prefix. */
  predicate FileEntry(prefix: string, key: string) {
    prefix < key && '/' !in key[|prefix|..]
  }

  predicate After(marker: string, k: string) {
    marker == "" || Less(marker, k)
  }

  predicate UpTo(p: Page, k: string) {
    p.truncated ==> !Less(p.nextMarker, k)
  }

  //// The entries

  lemma FolderFound(prefix: string, key: string, f: string)
    requires prefix < f <= key && f[|f| - 1] == '/' && '/' !in f[|prefix|..|f| - 1]
    ensures Folded(prefix, key) && FolderOf(prefix, key) == f
  {
    var rest, i := key[|prefix|..], |f| - 1 - |prefix|;
    assert rest[i] == f[|f| - 1];
    assert rest[..i] == f[|prefix|..|f| - 1];
    IndexByteUnique(rest, '/', i);
    hide IndexByte;
    assert f == prefix + rest[..i + 1];
  }

  lemma FoldersAre(objs: seq<ObjectRecord>, prefix: string, f: string)
    ensures f in FolderSet(objs, prefix) <==> FolderEntry(objs, prefix, f)
  {
    hide FolderOf, Folded;
    if f in FolderSet(objs, prefix) {
      var o :| o in objs && Folded(prefix, o.key) && FolderOf(prefix, o.key) == f;
    }
    if FolderEntry(objs, prefix, f) {
      var o :| o in objs && f <= o.key;
      FolderFound(prefix, o.key, f);
    }
  }

  ghost predicate FileNamed(objs: seq<ObjectRecord>, prefix: string, k: string) {
    FileEntry(prefix, k) && exists o :: o in objs && o.key == k
  }

  lemma EntriesAre(objs: seq<ObjectRecord>, prefix: string, k: string)
    ensures k in Entries(objs, prefix) <==> FolderEntry(objs, prefix, k) || FileNamed(objs, prefix, k)
    ensures k in FileMap(FileList(objs, prefix)) <==> FileNamed(objs, prefix, k)
  {
    hide Sort, SortedSet, FolderSet, FileList, Keys, FolderEntry, FileMap;
    var fs, files := FolderSet(objs, prefix), FileList(objs, prefix);
    FoldersAre(objs, prefix, k);
    SortedSetFacts(fs);
    FilesOf(objs, prefix);
    KeysOf(files);
    FileMapFacts(files);
    EntryFacts(objs, prefix);
    assert k in Entries(objs, prefix) <==> k in multiset(Entries(objs, prefix));
    assert k in Keys(files) <==> exists o :: o in files && o.key == k;
  }

  //// Which of them are on the page

  lemma {:induction false} SkipExactly(keys: seq<string>, marker: string, i: nat)
    requires Ordered(keys, Self) && i < |keys|
    ensures Less(marker, keys[i]) <==> SkipTo(keys, marker) <= i
  {
    if Less(marker, keys[0]) {
      if i > 0 {
        assert AtMost(Self(keys[0]), Self(keys[i]));
        if keys[0] != keys[i] { LessTransitive(marker, keys[0], keys[i]); }
      }
    } else if i > 0 {
      SkipExactly(keys[1..], marker, i - 1);
    }
  }

  lemma StartExactly(keys: seq<string>, marker: string, i: nat)
    requires Ordered(keys, Self) && i < |keys|
    ensures After(marker, keys[i]) <==> Start(keys, marker) <= i
  {
    hide Less, Ordered;
    SkipExactly(keys, marker, i);
  }

  lemma OnPage(objs: seq<ObjectRecord>, prefix: string, marker: string, maxKeys: int, k: string)
    requires DistinctKeys(objs)
    ensures k in PageKeys(Entries(objs, prefix), marker, maxKeys) <==>
              k in Entries(objs, prefix) && After(marker, k) && UpTo(PageAt(objs, prefix, marker, maxKeys), k)
  {
    hide Entries, FolderSet, FileList, FileMap, Inside, FilesAt, Start, Less, Ordered, Distinct, PageSize;
    var keys, p := Entries(objs, prefix), PageAt(objs, prefix, marker, maxKeys);
    var s, n, page := Start(keys, marker), PageSize(maxKeys), PageKeys(keys, marker, maxKeys);
    EntryFacts(objs, prefix);
    EntriesDistinct(objs, prefix);
    if k in keys {
      var i :| 0 <= i < |keys| && keys[i] == k;
      StartExactly(keys, marker, i);
      if p.truncated {
        assert p.nextMarker == keys[s + n - 1];
        if i > s + n - 1 { EarlierIsLess(keys, s + n - 1, i); } else { NotLater(keys, i, s + n - 1); }
      }
      if s <= i && i < s + |page| { assert page[i - s] == k; }
    }
    if k in page {
      var j :| 0 <= j < |page| && page[j] == k;
      assert keys[s + j] == k;
      StartExactly(keys, marker, s + j);
      if p.truncated { NotLater(keys, s + j, s + n - 1); }
    }
  }

  lemma NotLater(keys: seq<string>, i: nat, j: nat)
    requires Ordered(keys, Self) && i <= j < |keys|
    ensures !Less(keys[j], keys[i])
  {
    LessIrreflexive(keys[i]);
    if i < j {
      assert AtMost(Self(keys[i]), Self(keys[j]));
      if Less(keys[i], keys[j]) { LessAsymmetric(keys[i], keys[j]); }
    }
  }

  //// What the page shows of them

  lemma InsideExactly(keys: seq<string>, fs: set<string>, k: string)
    ensures k in Inside(keys, fs) <==> k in keys && k in fs
  {
    InsideCounts(keys, fs);
    hide Inside;
    assert k in Inside(keys, fs) <==> k in multiset(Inside(keys, fs));
    assert k in keys <==> k in multiset(keys);
  }

  lemma {:induction false} InsideSplit(keys: seq<string>, a: set<string>, b: set<string>)
    requires a !! b && forall k :: k in keys ==> k in a || k in b
    ensures |Inside(keys, a)| + |Inside(keys, b)| == |keys|
  {
    if keys != [] {
      assert keys[0] in keys;
      InsideSplit(keys[1..], a, b);
    }
  }

  lemma {:induction false} InsideDistinct(keys: seq<string>, fs: set<string>)
    requires Distinct(keys)
    ensures Distinct(Inside(keys, fs))
  {
    if keys != [] {
      InsideDistinct(keys[1..], fs);
      if keys[0] in Inside(keys[1..], fs) { InsideFrom(keys[1..], fs, keys[0]); }
    }
  }

  lemma SliceKept(keys: seq<string>, from: nat, to: nat)
    requires from <= to <= |keys| && Ordered(keys, Self) && Distinct(keys)
    ensures Ordered(keys[from..to], Self) && Distinct(keys[from..to])
  {
  }

  lemma PageIsSlice(objs: seq<ObjectRecord>, prefix: string, marker: string, maxKeys: int)
    requires DistinctKeys(objs)
    ensures var page := PageKeys(Entries(objs, prefix), marker, maxKeys);
            && Ordered(page, Self) && Distinct(page)
            && |page| <= (if maxKeys <= 0 then 100 else maxKeys)
            && (forall k :: k in page ==> k in Entries(objs, prefix))
  {
    hide Entries, Start, Ordered, Distinct;
    var keys := Entries(objs, prefix);
    EntryFacts(objs, prefix);
    EntriesDistinct(objs, prefix);
    var s, page := Start(keys, marker), PageKeys(keys, marker, maxKeys);
    assert page == keys[s..s + |page|];
    SliceKept(keys, s, s + |page|);
  }

  lemma KeysToFiles(files: seq<ObjectRecord>)
    requires Ordered(Keys(files), Self) && Distinct(Keys(files))
    ensures Ordered(files, KeyOf) && DistinctKeys(files)
  {
    KeysOf(files);
    hide Keys, Less;
    forall i, j | 0 <= i < j < |files|
      ensures AtMost(KeyOf(files[i]), KeyOf(files[j])) && files[i].key != files[j].key
    {
      assert AtMost(Self(Keys(files)[i]), Self(Keys(files)[j]));
    }
  }

  lemma PageParts(objs: seq<ObjectRecord>, prefix: string, marker: string, maxKeys: int)
    requires DistinctKeys(objs)
    ensures var p, page := PageAt(objs, prefix, marker, maxKeys), PageKeys(Entries(objs, prefix), marker, maxKeys);
            && |p.folders| + |p.files| == |page|
            && p.folders == Inside(page, FolderSet(objs, prefix))
            && Keys(p.files) == Inside(page, FileMap(FileList(objs, prefix)).Keys)
            && (forall o :: o in p.files ==> o in objs)
            && Ordered(p.folders, Self) && Distinct(p.folders) && Ordered(p.files, KeyOf) && DistinctKeys(p.files)
  {
    hide Entries, FolderSet, FileList, FileMap, Inside, FilesAt, PageKeys, Ordered, Distinct, DistinctKeys, IsFile;
    var fs, files := FolderSet(objs, prefix), FileList(objs, prefix);
    var page := PageKeys(Entries(objs, prefix), marker, maxKeys);
    var fm, p := FileMap(files), PageAt(objs, prefix, marker, maxKeys);
    PageIsSlice(objs, prefix, marker, maxKeys);
    FilesOf(objs, prefix);
    FileMapFacts(files);
    forall k | k in fs ensures k !in fm { NotBoth(objs, prefix, k); }
    FilesAtKeys(page, fs, fm, files);
    KeysOf(p.files);
    forall k | k in page ensures k in fs || k in fm {
      EntriesAre(objs, prefix, k);
      FoldersAre(objs, prefix, k);
    }
    hide Keys, FolderEntry, FileNamed;
    InsideSplit(page, fs, fm.Keys);
    InsideOrdered(page, fs);
    InsideDistinct(page, fs);
    InsideOrdered(page, fm.Keys);
    InsideDistinct(page, fm.Keys);
    KeysToFiles(p.files);
  }

  lemma FolderShown(objs: seq<ObjectRecord>, prefix: string, marker: string, maxKeys: int, f: string)
    requires DistinctKeys(objs)
    ensures var p := PageAt(objs, prefix, marker, maxKeys);
            f in p.folders <==> FolderEntry(objs, prefix, f) && After(marker, f) && UpTo(p, f)
  {
    hide Entries, FolderSet, FileList, FileMap, PageAt, PageKeys, Keys, FolderEntry, UpTo, After, Ordered, FileNamed;
    PageParts(objs, prefix, marker, maxKeys);
    OnPage(objs, prefix, marker, maxKeys, f);
    EntriesAre(objs, prefix, f);
    FoldersAre(objs, prefix, f);
    InsideExactly(PageKeys(Entries(objs, prefix), marker, maxKeys), FolderSet(objs, prefix), f);
  }

  lemma FileShown(objs: seq<ObjectRecord>, prefix: string, marker: string, maxKeys: int, o: ObjectRecord)
    requires DistinctKeys(objs)
    ensures var p := PageAt(objs, prefix, marker, maxKeys);
            o in p.files <==> o in objs && FileEntry(prefix, o.key) && After(marker, o.key) && UpTo(p, o.key)
  {
    hide Entries, FileList, FileMap, PageAt, PageKeys, Keys, UpTo, After, Ordered, FolderEntry, FileEntry, Inside;
    var p, names := PageAt(objs, prefix, marker, maxKeys), FileMap(FileList(objs, prefix)).Keys;
    var page := PageKeys(Entries(objs, prefix), marker, maxKeys);
    PageParts(objs, prefix, marker, maxKeys);
    OnPage(objs, prefix, marker, maxKeys, o.key);
    EntriesAre(objs, prefix, o.key);
    InsideExactly(page, names, o.key);
    KeysOf(p.files);
    if o in objs && o.key in Keys(p.files) {
      var i :| 0 <= i < |p.files| && p.files[i].key == o.key;
      assert p.files[i] in objs;
      SameKeySame(objs, o, p.files[i]);
    }
    if o in p.files {
      var i :| 0 <= i < |p.files| && p.files[i] == o;
      assert Keys(p.files)[i] == o.key;
    }
  }

  lemma SameKeySame(objs: seq<ObjectRecord>, a: ObjectRecord, b: ObjectRecord)
    requires DistinctKeys(objs) && a in objs && b in objs && a.key == b.key
    ensures a == b
  {
    var i :| 0 <= i < |objs| && objs[i] == a;
    var j :| 0 <= j < |objs| && objs[j] == b;
    assert i == j;
  }

  /** What a page shows, exactly: the first entries after the marker, folders and files each
      in order and once, as many as asked for (100 if nothing is asked for) or all there are;
      cut short, it says so and names the last one, and then there are more. */
  lemma PageExactly(objs: seq<ObjectRecord>, prefix: string, marker: string, maxKeys: int)
    requires DistinctKeys(objs)
    ensures var p, size := PageAt(objs, prefix, marker, maxKeys), if maxKeys <= 0 then 100 else maxKeys;
            && (forall f :: f in p.folders <==> FolderEntry(objs, prefix, f) && After(marker, f) && UpTo(p, f))
            && (forall o :: o in p.files <==>
                  o in objs && FileEntry(prefix, o.key) && After(marker, o.key) && UpTo(p, o.key))
            && Ordered(p.folders, Self) && Distinct(p.folders) && Ordered(p.files, KeyOf) && DistinctKeys(p.files)
            && |p.folders| + |p.files| <= size
            && (p.truncated ==>
                  && |p.folders| + |p.files| == size && Shows(p, p.nextMarker)
                  && exists k :: (FolderEntry(objs, prefix, k) || FileNamed(objs, prefix, k)) && Less(p.nextMarker, k))
            && (!p.truncated ==> p.nextMarker == "")
  {
    hide FolderEntry, FileEntry, After, UpTo, Ordered, Distinct, PageAt, Shows, FileNamed;
    var p := PageAt(objs, prefix, marker, maxKeys);
    forall f ensures f in p.folders <==> FolderEntry(objs, prefix, f) && After(marker, f) && UpTo(p, f) {
      FolderShown(objs, prefix, marker, maxKeys, f);
    }
    forall o ensures o in p.files <==>
                       o in objs && FileEntry(prefix, o.key) && After(marker, o.key) && UpTo(p, o.key) {
      FileShown(objs, prefix, marker, maxKeys, o);
    }
    assert Ordered(p.folders, Self) && Distinct(p.folders) && Ordered(p.files, KeyOf) && DistinctKeys(p.files) by {
      PageParts(objs, prefix, marker, maxKeys);
    }
    PageLength(objs, prefix, marker, maxKeys);
    if p.truncated { MoreFollow(objs, prefix, marker, maxKeys); }
  }

  lemma PageLength(objs: seq<ObjectRecord>, prefix: string, marker: string, maxKeys: int)
    requires DistinctKeys(objs)
    ensures var p, size := PageAt(objs, prefix, marker, maxKeys), if maxKeys <= 0 then 100 else maxKeys;
            && |p.folders| + |p.files| <= size
            && (p.truncated ==> |p.folders| + |p.files| == size)
            && (!p.truncated ==> p.nextMarker == "")
  {
    hide Entries, FolderSet, FileList, FileMap, Inside, FilesAt, Ordered, Distinct, Start, Keys;
    PageParts(objs, prefix, marker, maxKeys);
  }

  lemma MoreFollow(objs: seq<ObjectRecord>, prefix: string, marker: string, maxKeys: int)
    requires DistinctKeys(objs) && PageAt(objs, prefix, marker, maxKeys).truncated
    ensures var p := PageAt(objs, prefix, marker, maxKeys);
            && Shows(p, p.nextMarker)
            && exists k :: (FolderEntry(objs, prefix, k) || FileNamed(objs, prefix, k)) && Less(p.nextMarker, k)
  {
    var p, keys := PageAt(objs, prefix, marker, maxKeys), Entries(objs, prefix);
    var s, n, page := Start(keys, marker), PageSize(maxKeys), PageKeys(keys, marker, maxKeys);
    hide Entries, FolderSet, FileList, FileMap, Inside, FilesAt, Ordered, Distinct, Start, Keys, FolderEntry, FileNamed;
    hide Less, PageSize;
    EntryFacts(objs, prefix);
    EntriesDistinct(objs, prefix);
    var k := keys[s + n];
    assert p.nextMarker == page[n - 1] == keys[s + n - 1];
    EarlierIsLess(keys, s + n - 1, s + n);
    EntriesAre(objs, prefix, k);
    EntriesAre(objs, prefix, p.nextMarker);
    FoldersAre(objs, prefix, p.nextMarker);
    PageParts(objs, prefix, marker, maxKeys);
    InsideExactly(page, FolderSet(objs, prefix), p.nextMarker);
    InsideExactly(page, FileMap(FileList(objs, prefix)).Keys, p.nextMarker);
    KeysOf(p.files);
    if p.nextMarker !in p.folders {
      var i :| 0 <= i < |p.files| && Keys(p.files)[i] == p.nextMarker;
      assert p.files[i] in p.files;
    }
  }
}
