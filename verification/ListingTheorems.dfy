/** Following next_marker lists a level completely, once, in order. */
module ListingTheorems {
  import opened Strings
  import opened Listing

  //// The entries of a level

  lemma {:induction false} FilesOf(objs: seq<ObjectRecord>, prefix: string)
    ensures forall o :: o in FileList(objs, prefix) <==> o in objs && IsFile(prefix, o.key)
  {
    if objs != [] {
      FilesOf(objs[1..], prefix);
      assert objs == [objs[0]] + objs[1..];
    }
  }

  lemma {:induction false} KeysOf(objs: seq<ObjectRecord>)
    ensures |Keys(objs)| == |objs| && forall i :: 0 <= i < |objs| ==> Keys(objs)[i] == objs[i].key
  {
    if objs != [] { KeysOf(objs[1..]); }
  }

  ghost predicate DistinctKeys(objs: seq<ObjectRecord>) {
    forall i, j :: 0 <= i < j < |objs| ==> objs[i].key != objs[j].key
  }

  lemma {:induction false} FilesDistinct(objs: seq<ObjectRecord>, prefix: string)
    requires DistinctKeys(objs)
    ensures DistinctKeys(FileList(objs, prefix))
  {
    hide IsFile;
    if objs != [] {
      var t := objs[1..];
      FilesDistinct(t, prefix);
      FilesOf(t, prefix);
      var fs := FileList(t, prefix);
      forall j | 0 <= j < |fs| ensures fs[j].key != objs[0].key {
        assert fs[j] in t;
      }
    }
  }

  lemma NotBoth(objs: seq<ObjectRecord>, prefix: string, k: string)
    requires k in FolderSet(objs, prefix)
    ensures !IsFile(prefix, k) && k != ""
  {
    var o :| o in objs && Folded(prefix, o.key) && FolderOf(prefix, o.key) == k;
    assert k[|prefix|..][|k| - 1 - |prefix|] == '/';
  }

  lemma EntryFacts(objs: seq<ObjectRecord>, prefix: string)
    ensures Ordered(Entries(objs, prefix), Self)
    ensures multiset(Entries(objs, prefix))
            == multiset(FolderSet(objs, prefix)) + multiset(Keys(FileList(objs, prefix)))
    ensures "" !in Entries(objs, prefix)
  {
    hide SortBy, FolderSet, FileList, IsFile, SortedSet;
    var fs, files := FolderSet(objs, prefix), FileList(objs, prefix);
    SortedSetFacts(fs);
    SortByOrdered(SortedSet(fs) + Keys(files), Self);
    KeysOf(files);
    FilesOf(objs, prefix);
    var e := Entries(objs, prefix);
    forall k | k in e ensures k != "" {
      assert k in multiset(e);
      if k in fs {
        NotBoth(objs, prefix, k);
      } else {
        assert k in Keys(files);
        var i :| 0 <= i < |files| && files[i].key == k;
        assert files[i] in files;
        assert IsFile(prefix, k);
        FileNonEmpty(prefix, k);
      }
    }
  }

  lemma FileNonEmpty(prefix: string, k: string)
    requires IsFile(prefix, k)
    ensures k != ""
  {
  }

  ghost function EntrySet(objs: seq<ObjectRecord>, prefix: string): set<string> {
    FolderSet(objs, prefix) + set o | o in FileList(objs, prefix) :: o.key
  }

  lemma FileKeySet(files: seq<ObjectRecord>)
    requires DistinctKeys(files)
    ensures multiset(Keys(files)) == multiset(set o | o in files :: o.key)
  {
    hide Keys;
    KeysOf(files);
    DistinctCounts(Keys(files));
    var names := set o | o in files :: o.key;
    assert forall k :: k in names <==> k in Keys(files);
  }

  lemma EntriesDistinct(objs: seq<ObjectRecord>, prefix: string)
    requires DistinctKeys(objs)
    ensures multiset(Entries(objs, prefix)) == multiset(EntrySet(objs, prefix))
    ensures Distinct(Entries(objs, prefix))
  {
    hide SortBy, FolderSet, FileList, IsFile, Entries, Keys, Ordered, Distinct;
    var fs, files := FolderSet(objs, prefix), FileList(objs, prefix);
    EntryFacts(objs, prefix);
    FilesDistinct(objs, prefix);
    FilesOf(objs, prefix);
    FileKeySet(files);
    var names := set o | o in files :: o.key;
    forall k | k in fs ensures k !in names { NotBoth(objs, prefix, k); }
    assert multiset(fs) + multiset(names) == multiset(fs + names);
    DistinctOfSet(Entries(objs, prefix), EntrySet(objs, prefix));
  }

  //// Markers

  lemma {:induction false} SkipPast(keys: seq<string>, i: nat)
    requires Ordered(keys, Self) && i < |keys|
    ensures SkipTo(keys, keys[i]) > i
    ensures Distinct(keys) ==> SkipTo(keys, keys[i]) == i + 1
    decreases |keys|
  {
    var k := keys[i];
    assert i > 0 ==> AtMost(Self(keys[0]), Self(k));
    if Less(keys[0], k) { LessAsymmetric(keys[0], k); }
    LessIrreflexive(k);
    var t := keys[1..];
    if i > 0 {
      assert t[i - 1] == k;
      SkipPast(t, i - 1);
    } else if |keys| > 1 {
      assert AtMost(Self(k), Self(keys[1]));
    }
  }

  /** A truncated page's marker resumes after everything the page showed. */
  lemma MarkerMoves(objs: seq<ObjectRecord>, prefix: string, marker: string, maxKeys: int)
    requires PageAt(objs, prefix, marker, maxKeys).truncated
    ensures var keys, n := Entries(objs, prefix), PageSize(maxKeys);
            var s, next := Start(keys, marker), PageAt(objs, prefix, marker, maxKeys).nextMarker;
            && s + n <= Start(keys, next)
            && (Distinct(keys) ==> Start(keys, next) == s + n)
  {
    hide Entries, SkipTo, Inside, FilesAt, FolderSet, FileList, Ordered, Distinct, FileMap;
    var keys, n := Entries(objs, prefix), PageSize(maxKeys);
    var s := Start(keys, marker);
    EntryFacts(objs, prefix);
    var next := PageAt(objs, prefix, marker, maxKeys).nextMarker;
    assert next == keys[s + n - 1];
    assert next in keys;
    SkipPast(keys, s + n - 1);
  }

  //// Whole runs

  /** The pages a client gets by following next_marker until it is not truncated. */
  ghost function Pages(objs: seq<ObjectRecord>, prefix: string, marker: string, maxKeys: int): seq<Page>
    decreases |Entries(objs, prefix)| - Start(Entries(objs, prefix), marker)
  {
    var p := PageAt(objs, prefix, marker, maxKeys);
    if p.truncated then
      MarkerMoves(objs, prefix, marker, maxKeys);
      [p] + Pages(objs, prefix, p.nextMarker, maxKeys)
    else [p]
  }

  ghost function AllFolders(ps: seq<Page>): seq<string> {
    if ps == [] then [] else ps[0].folders + AllFolders(ps[1..])
  }

  ghost function AllFiles(ps: seq<Page>): seq<ObjectRecord> {
    if ps == [] then [] else ps[0].files + AllFiles(ps[1..])
  }

  lemma {:induction false} InsideConcat(a: seq<string>, b: seq<string>, fs: set<string>)
    ensures Inside(a + b, fs) == Inside(a, fs) + Inside(b, fs)
  {
    if a == [] {
      assert a + b == b;
    } else {
      assert (a + b)[1..] == a[1..] + b;
      InsideConcat(a[1..], b, fs);
    }
  }

  lemma {:induction false} FilesAtConcat(a: seq<string>, b: seq<string>, fs: set<string>, fm: map<string, ObjectRecord>)
    ensures FilesAt(a + b, fs, fm) == FilesAt(a, fs, fm) + FilesAt(b, fs, fm)
  {
    if a == [] {
      assert a + b == b;
    } else {
      assert (a + b)[1..] == a[1..] + b;
      FilesAtConcat(a[1..], b, fs, fm);
    }
  }

  ghost function PageCount(m: nat, n: nat): nat
    requires n > 0
  {
    if m <= n then 1 else 1 + PageCount(m - n, n)
  }

  lemma {:induction false} PageCountIsCeiling(m: nat, n: nat)
    requires n > 0
    ensures PageCount(m, n) == if m == 0 then 1 else (m + n - 1) / n
    decreases m
  {
    if m > n {
      PageCountIsCeiling(m - n, n);
      assert (m + n - 1) / n == (m - n + n - 1) / n + 1 by { AddDivisor(m - n + n - 1, n); }
    } else if m > 0 {
      assert (m + n - 1) / n == 1 by { AddDivisor(m - 1, n); SmallQuotient(m - 1, n); }
    }
  }

  lemma SmallQuotient(x: nat, n: nat)
    requires x < n
    ensures x / n == 0
  {
  }

  lemma AddDivisor(x: nat, n: nat)
    requires n > 0
    ensures (x + n) / n == x / n + 1
  {
    var q, r := x / n, x % n;
    assert x == q * n + r;
    assert x + n == (q + 1) * n + r;
    QuotientUnique(x + n, n, q + 1, r);
  }

  lemma QuotientUnique(x: nat, n: nat, q: nat, r: nat)
    requires n > 0 && r < n && x == q * n + r
    ensures x / n == q
  {
    var d := x / n - q;
    assert d * n == r - x % n by { assert x == x / n * n + x % n; }
  }

  /** What one page takes off the front of the remaining entries. */
  lemma OnePage(objs: seq<ObjectRecord>, prefix: string, marker: string, maxKeys: int)
    ensures var keys, fs, fm := Entries(objs, prefix), FolderSet(objs, prefix), FileMap(FileList(objs, prefix));
            var s, n, p := Start(keys, marker), PageSize(maxKeys), PageAt(objs, prefix, marker, maxKeys);
            var after := if p.truncated then keys[s + n..] else [];
            && p.truncated == (|keys| - s > n)
            && Inside(keys[s..], fs) == p.folders + Inside(after, fs)
            && FilesAt(keys[s..], fs, fm) == p.files + FilesAt(after, fs, fm)
  {
    hide Entries, FolderSet, FileList, FileMap, Inside, FilesAt, Start, PageSize;
    var keys, fs, fm := Entries(objs, prefix), FolderSet(objs, prefix), FileMap(FileList(objs, prefix));
    var s, n, p := Start(keys, marker), PageSize(maxKeys), PageAt(objs, prefix, marker, maxKeys);
    var shown := PageKeys(keys, marker, maxKeys);
    var after := if p.truncated then keys[s + n..] else [];
    assert shown + after == keys[s..];
    InsideConcat(shown, after, fs);
    FilesAtConcat(shown, after, fs, fm);
  }

  lemma {:induction false} PagesFrom(objs: seq<ObjectRecord>, prefix: string, marker: string, maxKeys: int)
    requires DistinctKeys(objs)
    ensures var keys, fs := Entries(objs, prefix), FolderSet(objs, prefix);
            var rest, ps := keys[Start(keys, marker)..], Pages(objs, prefix, marker, maxKeys);
            && AllFolders(ps) == Inside(rest, fs)
            && AllFiles(ps) == FilesAt(rest, fs, FileMap(FileList(objs, prefix)))
            && |ps| == PageCount(|rest|, PageSize(maxKeys))
    decreases |Entries(objs, prefix)| - Start(Entries(objs, prefix), marker)
  {
    hide Entries, FolderSet, FileList, FileMap, Start, PageSize, PageAt, Inside, FilesAt, Pages, AllFolders, AllFiles;
    var p := PageAt(objs, prefix, marker, maxKeys);
    OnePage(objs, prefix, marker, maxKeys);
    PagesUnfold(objs, prefix, marker, maxKeys);
    if p.truncated {
      EntriesDistinct(objs, prefix);
      MarkerMoves(objs, prefix, marker, maxKeys);
      PagesFrom(objs, prefix, p.nextMarker, maxKeys);
      UnionCons(p, Pages(objs, prefix, p.nextMarker, maxKeys));
    } else {
      UnionCons(p, []);
      NothingInside(FolderSet(objs, prefix), FileMap(FileList(objs, prefix)));
    }
  }

  lemma PagesUnfold(objs: seq<ObjectRecord>, prefix: string, marker: string, maxKeys: int)
    ensures var p := PageAt(objs, prefix, marker, maxKeys);
            Pages(objs, prefix, marker, maxKeys)
            == [p] + if p.truncated then Pages(objs, prefix, p.nextMarker, maxKeys) else []
  {
    hide PageAt, Entries, Start;
  }

  lemma UnionCons(p: Page, ps: seq<Page>)
    ensures AllFolders([p] + ps) == p.folders + AllFolders(ps)
    ensures AllFiles([p] + ps) == p.files + AllFiles(ps)
  {
    assert ([p] + ps)[1..] == ps;
  }

  lemma NothingInside(fs: set<string>, fm: map<string, ObjectRecord>)
    ensures Inside([], fs) == [] == AllFolders([])
    ensures FilesAt([], fs, fm) == [] == AllFiles([])
  {
  }

  //// The union of the pages

  lemma {:induction false} InsideCounts(keys: seq<string>, fs: set<string>)
    ensures forall k :: multiset(Inside(keys, fs))[k] == if k in fs then multiset(keys)[k] else 0
  {
    if keys != [] {
      InsideCounts(keys[1..], fs);
      assert keys == [keys[0]] + keys[1..];
    }
  }

  lemma {:induction false} InsideOrdered(keys: seq<string>, fs: set<string>)
    requires Ordered(keys, Self)
    ensures Ordered(Inside(keys, fs), Self)
    ensures forall k :: k in Inside(keys, fs) ==> k in keys
  {
    if keys != [] {
      var h, t := keys[0], keys[1..];
      InsideOrdered(t, fs);
      var r := Inside(t, fs);
      forall j | 0 <= j < |r| ensures AtMost(Self(h), Self(r[j])) {
        assert r[j] in t;
        var i :| 0 <= i < |t| && t[i] == r[j];
        assert AtMost(Self(keys[0]), Self(keys[i + 1]));
      }
    }
  }

  lemma FoldersComplete(objs: seq<ObjectRecord>, prefix: string)
    requires DistinctKeys(objs)
    ensures Inside(Entries(objs, prefix), FolderSet(objs, prefix)) == SortedSet(FolderSet(objs, prefix))
  {
    hide Entries, FolderSet, FileList, Inside, SortedSet, Ordered;
    var keys, fs := Entries(objs, prefix), FolderSet(objs, prefix);
    EntryFacts(objs, prefix);
    EntriesDistinct(objs, prefix);
    InsideCounts(keys, fs);
    InsideOrdered(keys, fs);
    SortedSetFacts(fs);
    assert fs <= EntrySet(objs, prefix);
    forall k ensures multiset(Inside(keys, fs))[k] == multiset(SortedSet(fs))[k] {
      assert multiset(keys)[k] == if k in EntrySet(objs, prefix) then 1 else 0;
    }
    assert multiset(Inside(keys, fs)) == multiset(SortedSet(fs));
    SortedUnique(Inside(keys, fs), SortedSet(fs));
  }

  lemma {:induction false} FileMapFacts(files: seq<ObjectRecord>)
    ensures FileMap(files).Keys == set o | o in files :: o.key
    ensures forall k :: k in FileMap(files) ==> FileMap(files)[k] in files && FileMap(files)[k].key == k
  {
    if files != [] {
      var n := |files| - 1;
      FileMapFacts(files[..n]);
      assert files == files[..n] + [files[n]];
      assert (set o | o in files :: o.key) == (set o | o in files[..n] :: o.key) + {files[n].key};
    }
  }

  lemma {:induction false} FilesAtKeys(keys: seq<string>, fs: set<string>, fm: map<string, ObjectRecord>,
                                       files: seq<ObjectRecord>)
    requires fs !! fm.Keys
    requires forall k :: k in fm ==> fm[k] in files && fm[k].key == k
    ensures Keys(FilesAt(keys, fs, fm)) == Inside(keys, fm.Keys)
    ensures forall o :: o in FilesAt(keys, fs, fm) ==> o in files
  {
    if keys != [] {
      var t := FilesAt(keys[1..], fs, fm);
      FilesAtKeys(keys[1..], fs, fm, files);
      if keys[0] in fm {
        assert FilesAt(keys, fs, fm) == [fm[keys[0]]] + t;
        assert ([fm[keys[0]]] + t)[1..] == t;
      } else {
        assert FilesAt(keys, fs, fm) == t;
      }
    }
  }

  lemma SameRecords(a: seq<ObjectRecord>, b: seq<ObjectRecord>, files: seq<ObjectRecord>)
    requires DistinctKeys(files) && Keys(a) == Keys(b)
    requires (forall o :: o in a ==> o in files) && (forall o :: o in b ==> o in files)
    ensures a == b
  {
    KeysOf(a);
    KeysOf(b);
    forall i | 0 <= i < |a| ensures a[i] == b[i] {
      assert Keys(a)[i] == Keys(b)[i];
      assert a[i] in files && b[i] in files;
      var x :| 0 <= x < |files| && files[x] == a[i];
      var y :| 0 <= y < |files| && files[y] == b[i];
      assert x == y;
    }
  }

  lemma {:induction false} KeysOfInsert(x: ObjectRecord, s: seq<ObjectRecord>)
    ensures Keys(Insert(x, s, KeyOf)) == Insert(x.key, Keys(s), Self)
  {
    if s != [] {
      assert Keys(s)[1..] == Keys(s[1..]);
      if Less(s[0].key, x.key) {
        KeysOfInsert(x, s[1..]);
        var t := Insert(x, s[1..], KeyOf);
        assert ([s[0]] + t)[1..] == t;
      } else {
        assert ([x] + s)[1..] == s;
      }
    }
  }

  lemma {:induction false} KeysOfSort(files: seq<ObjectRecord>)
    ensures Keys(SortBy(files, KeyOf)) == Sort(Keys(files))
  {
    if files != [] {
      KeysOfSort(files[1..]);
      KeysOfInsert(files[0], SortBy(files[1..], KeyOf));
      assert Keys(files)[1..] == Keys(files[1..]);
    }
  }

  lemma SortedKeysOf(files: seq<ObjectRecord>)
    ensures Ordered(Keys(SortBy(files, KeyOf)), Self)
    ensures multiset(Keys(SortBy(files, KeyOf))) == multiset(Keys(files))
    ensures forall o :: o in SortBy(files, KeyOf) ==> o in files
  {
    hide SortBy, Keys, Ordered;
    var s := SortBy(files, KeyOf);
    KeysOfSort(files);
    SortByOrdered(Keys(files), Self);
    SortByOrdered(files, KeyOf);
    forall o | o in s ensures o in files { assert o in multiset(s); }
  }

  lemma FilesComplete(objs: seq<ObjectRecord>, prefix: string)
    requires DistinctKeys(objs)
    ensures FilesAt(Entries(objs, prefix), FolderSet(objs, prefix), FileMap(FileList(objs, prefix)))
            == SortBy(FileList(objs, prefix), KeyOf)
  {
    hide Entries, FolderSet, FileList, Inside, FilesAt, Ordered, SortBy, FileMap, IsFile;
    var keys, fs, files := Entries(objs, prefix), FolderSet(objs, prefix), FileList(objs, prefix);
    var fm := FileMap(files);
    EntryFacts(objs, prefix);
    EntriesDistinct(objs, prefix);
    FilesDistinct(objs, prefix);
    FilesOf(objs, prefix);
    KeysOf(files);
    FileMapFacts(files);
    forall k | k in fs ensures k !in fm { NotBoth(objs, prefix, k); }
    FilesAtKeys(keys, fs, fm, files);
    InsideOrdered(keys, fm.Keys);
    SortedKeysOf(files);
    FileKeyCounts(objs, prefix);
    SortedUnique(Inside(keys, fm.Keys), Keys(SortBy(files, KeyOf)));
    SameRecords(FilesAt(keys, fs, fm), SortBy(files, KeyOf), files);
  }

  lemma FileKeyCounts(objs: seq<ObjectRecord>, prefix: string)
    requires DistinctKeys(objs)
    ensures var files := FileList(objs, prefix);
            multiset(Inside(Entries(objs, prefix), FileMap(files).Keys)) == multiset(Keys(files))
  {
    hide Entries, FolderSet, FileList, Inside, Ordered, FileMap, IsFile;
    var keys, fs, files := Entries(objs, prefix), FolderSet(objs, prefix), FileList(objs, prefix);
    var names := FileMap(files).Keys;
    FilesOf(objs, prefix);
    EntryFacts(objs, prefix);
    InsideCounts(keys, names);
    FileMapFacts(files);
    KeysOf(files);
    forall k ensures multiset(Inside(keys, names))[k] == multiset(Keys(files))[k] {
      if k in names {
        if k in fs { NotBoth(objs, prefix, k); }
      } else {
        assert k !in Keys(files);
      }
    }
  }

  /** Whole-run pagination: from the empty marker, the pages together show every
      folder and every file of the level exactly once and in byte order, in
      ceil(entries / page size) pages, or one page when there is nothing. */
  lemma WholeListing(objs: seq<ObjectRecord>, prefix: string, maxKeys: int)
    requires DistinctKeys(objs)
    ensures var ps := Pages(objs, prefix, "", maxKeys);
            var entries, n := |FolderSet(objs, prefix)| + |FileList(objs, prefix)|, PageSize(maxKeys);
            && AllFolders(ps) == SortedSet(FolderSet(objs, prefix))
            && AllFiles(ps) == SortBy(FileList(objs, prefix), KeyOf)
            && |ps| == if entries == 0 then 1 else (entries + n - 1) / n
  {
    hide Entries, FolderSet, FileList, Inside, FilesAt, SortBy, FileMap, Pages, SortedSet, PageCount, PageSize;
    var keys := Entries(objs, prefix);
    PagesFrom(objs, prefix, "", maxKeys);
    assert keys[0..] == keys;
    FoldersComplete(objs, prefix);
    FilesComplete(objs, prefix);
    EntryFacts(objs, prefix);
    KeysOf(FileList(objs, prefix));
    assert |keys| == |multiset(keys)|;
    PageCountIsCeiling(|keys|, PageSize(maxKeys));
  }

  //// Order across pages

  /** The page shows an entry of this name. */
  ghost predicate Shows(p: Page, k: string) {
    k in p.folders || exists o :: o in p.files && o.key == k
  }

  lemma {:induction false} InsideFrom(keys: seq<string>, fs: set<string>, k: string)
    requires k in Inside(keys, fs)
    ensures k in keys
  {
    if keys != [] && k != keys[0] { InsideFrom(keys[1..], fs, k); }
  }

  lemma {:induction false} FilesAtFrom(keys: seq<string>, fs: set<string>, fm: map<string, ObjectRecord>,
                                       o: ObjectRecord)
    requires o in FilesAt(keys, fs, fm) && forall k :: k in fm ==> fm[k].key == k
    ensures o.key in keys
  {
    if keys != [] && o.key != keys[0] { FilesAtFrom(keys[1..], fs, fm, o); }
  }

  lemma ShownOnPage(objs: seq<ObjectRecord>, prefix: string, marker: string, maxKeys: int, k: string)
    requires Shows(PageAt(objs, prefix, marker, maxKeys), k)
    ensures k in PageKeys(Entries(objs, prefix), marker, maxKeys)
  {
    hide Entries, FolderSet, FileList, FileMap, Inside, FilesAt, PageKeys, Start;
    var p, fs, fm := PageAt(objs, prefix, marker, maxKeys), FolderSet(objs, prefix), FileMap(FileList(objs, prefix));
    var page := PageKeys(Entries(objs, prefix), marker, maxKeys);
    if k in p.folders {
      InsideFrom(page, fs, k);
    } else {
      var o :| o in p.files && o.key == k;
      FileMapFacts(FileList(objs, prefix));
      FilesAtFrom(page, fs, fm, o);
    }
  }

  /** Whatever a page of the rest of a run shows is still to come. */
  lemma {:induction false} ShownLater(objs: seq<ObjectRecord>, prefix: string, marker: string, maxKeys: int, j: nat,
                                      k: string)
    requires j < |Pages(objs, prefix, marker, maxKeys)| && Shows(Pages(objs, prefix, marker, maxKeys)[j], k)
    ensures var keys := Entries(objs, prefix);
            exists x :: Start(keys, marker) <= x < |keys| && keys[x] == k
    decreases j
  {
    hide Entries, PageAt, Pages, Start, PageSize, Shows;
    PagesUnfold(objs, prefix, marker, maxKeys);
    var keys, p := Entries(objs, prefix), PageAt(objs, prefix, marker, maxKeys);
    if j == 0 {
      ShownOnPage(objs, prefix, marker, maxKeys, k);
      var page, s := PageKeys(keys, marker, maxKeys), Start(keys, marker);
      var y :| 0 <= y < |page| && page[y] == k;
      assert keys[s + y] == k;
    } else {
      MarkerMoves(objs, prefix, marker, maxKeys);
      ShownLater(objs, prefix, p.nextMarker, maxKeys, j - 1, k);
    }
  }

  lemma EarlierIsLess(keys: seq<string>, x: nat, y: nat)
    requires Ordered(keys, Self) && Distinct(keys) && x < y < |keys|
    ensures Less(keys[x], keys[y])
  {
    assert AtMost(Self(keys[x]), Self(keys[y]));
  }

  /** Order across pages: every folder or file of a page comes before every folder or
      file of any later page. */
  lemma {:induction false} PagesInOrder(objs: seq<ObjectRecord>, prefix: string, marker: string, maxKeys: int,
                                        i: nat, j: nat, a: string, b: string)
    requires DistinctKeys(objs) && i < j < |Pages(objs, prefix, marker, maxKeys)|
    requires Shows(Pages(objs, prefix, marker, maxKeys)[i], a) && Shows(Pages(objs, prefix, marker, maxKeys)[j], b)
    ensures Less(a, b)
    decreases i
  {
    hide Entries, PageAt, Pages, Start, PageSize, Shows, Less, Ordered, Distinct;
    PagesUnfold(objs, prefix, marker, maxKeys);
    var keys, p := Entries(objs, prefix), PageAt(objs, prefix, marker, maxKeys);
    if i == 0 {
      FirstPageInOrder(objs, prefix, marker, maxKeys, j - 1, a, b);
    } else {
      PagesInOrder(objs, prefix, p.nextMarker, maxKeys, i - 1, j - 1, a, b);
    }
  }

  lemma FirstPageInOrder(objs: seq<ObjectRecord>, prefix: string, marker: string, maxKeys: int, j: nat,
                         a: string, b: string)
    requires DistinctKeys(objs) && PageAt(objs, prefix, marker, maxKeys).truncated
    requires var next := PageAt(objs, prefix, marker, maxKeys).nextMarker;
             j < |Pages(objs, prefix, next, maxKeys)| && Shows(Pages(objs, prefix, next, maxKeys)[j], b)
    requires Shows(PageAt(objs, prefix, marker, maxKeys), a)
    ensures Less(a, b)
  {
    hide Entries, PageAt, Pages, Start, PageSize, Shows, Less, Ordered, Distinct;
    var keys, next := Entries(objs, prefix), PageAt(objs, prefix, marker, maxKeys).nextMarker;
    EntryFacts(objs, prefix);
    EntriesDistinct(objs, prefix);
    MarkerMoves(objs, prefix, marker, maxKeys);
    OnePage(objs, prefix, marker, maxKeys);
    ShownOnPage(objs, prefix, marker, maxKeys, a);
    ShownLater(objs, prefix, next, maxKeys, j, b);
    var page, s := PageKeys(keys, marker, maxKeys), Start(keys, marker);
    var x :| 0 <= x < |page| && page[x] == a;
    var y :| Start(keys, next) <= y < |keys| && keys[y] == b;
    assert keys[s + x] == a && s + x < s + PageSize(maxKeys) <= y;
    EarlierIsLess(keys, s + x, y);
  }

  /** Every object below the prefix is shown as a file or folded into exactly one
      listed folder, and nothing else is shown. */
  lemma EveryObjectListed(objs: seq<ObjectRecord>, prefix: string, maxKeys: int)
    requires DistinctKeys(objs)
    ensures var ps := Pages(objs, prefix, "", maxKeys);
            && (forall o :: o in objs && Below(prefix, o.key) ==>
                  (o in AllFiles(ps) <==> '/' !in o.key[|prefix|..])
                  && (Folded(prefix, o.key) ==>
                        FolderOf(prefix, o.key) in AllFolders(ps)
                        && forall f :: f in AllFolders(ps) && f <= o.key ==> f == FolderOf(prefix, o.key)))
            && (forall o :: o in AllFiles(ps) ==> o in objs && Below(prefix, o.key))
            && (forall f :: f in AllFolders(ps) ==>
                  exists o :: o in objs && Folded(prefix, o.key) && FolderOf(prefix, o.key) == f)
            && Distinct(AllFolders(ps)) && DistinctKeys(AllFiles(ps))
  {
    hide Entries, FileList, SortBy, Pages, SortedSet, FolderOf;
    var ps := Pages(objs, prefix, "", maxKeys);
    var files := FileList(objs, prefix);
    WholeListing(objs, prefix, maxKeys);
    SortedSetFacts(FolderSet(objs, prefix));
    FilesOf(objs, prefix);
    SortByOrdered(files, KeyOf);
    assert forall o :: o in AllFiles(ps) <==> o in multiset(AllFiles(ps));
    FilesDistinct(objs, prefix);
    DistinctSorted(files);
    forall o, f | o in objs && Folded(prefix, o.key) && f in AllFolders(ps) && f <= o.key
      ensures f == FolderOf(prefix, o.key)
    {
      OneFolder(objs, prefix, o.key, f);
    }
  }

  /** A folder that is a prefix of a key ends at the first slash after `prefix`. */
  lemma FolderEnds(prefix: string, source: string, key: string)
    requires Folded(prefix, source) && FolderOf(prefix, source) <= key
    ensures var n := |FolderOf(prefix, source)|;
            && |prefix| < n <= |key| && FolderOf(prefix, source) == key[..n]
            && key[n - 1] == '/' && '/' !in key[|prefix|..n - 1]
  {
    var f := FolderOf(prefix, source);
    assert f == key[..|f|];
    assert f[|prefix|..|f| - 1] == key[|prefix|..|f| - 1];
  }

  lemma OneFolder(objs: seq<ObjectRecord>, prefix: string, key: string, f: string)
    requires Folded(prefix, key) && f in FolderSet(objs, prefix) && f <= key
    ensures f == FolderOf(prefix, key)
  {
    hide FolderOf;
    var o :| o in objs && Folded(prefix, o.key) && FolderOf(prefix, o.key) == f;
    FolderEnds(prefix, o.key, key);
    FolderEnds(prefix, key, key);
    SameSlash(key, |prefix|, |f| - 1, |FolderOf(prefix, key)| - 1);
  }

  lemma SameSlash(key: string, from: nat, i: nat, j: nat)
    requires from <= i < |key| && from <= j < |key|
    requires key[i] == '/' && key[j] == '/' && '/' !in key[from..i] && '/' !in key[from..j]
    ensures i == j
  {
    assert forall k :: from <= k < i ==> key[k] in key[from..i];
    assert forall k :: from <= k < j ==> key[k] in key[from..j];
  }

  lemma DistinctSorted(files: seq<ObjectRecord>)
    requires DistinctKeys(files)
    ensures DistinctKeys(SortBy(files, KeyOf))
  {
    hide SortBy, Keys, Ordered;
    var s := SortBy(files, KeyOf);
    SortedKeysOf(files);
    KeysOf(files);
    KeysOf(s);
    DistinctCounts(Keys(files));
    var names := set k | k in Keys(files);
    assert multiset(Keys(s)) == multiset(names);
    DistinctOfSet(Keys(s), names);
    assert forall i :: 0 <= i < |s| ==> Keys(s)[i] == s[i].key;
  }
}
