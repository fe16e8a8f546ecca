/**
 Directory scans: the streaming, truncating scan finds the best names, and a
 complete scan for a shorter prefix may stand in for a fresh one, except where
 the shorter prefix skipped hidden names.
 */
module PrefixScan {
  import opened Wrappers
  import opened TextOrder
  import opened Ranking
  import opened Matcher

  /** What a directory holds, in the order it is read. */
  datatype File = File(name: string, directory: bool, mode: bool)

  datatype EntryKind = FileEntry | DirectoryEntry | ExecutableEntry

  datatype Entry = Entry(name: string, kind: EntryKind)

  datatype ScanKey = ScanKey(directory: string, prefix: string, executableOnly: bool)

  function KindOf(f: File): EntryKind {
    if f.directory then DirectoryEntry else if f.mode then ExecutableEntry else FileEntry
  }

  function Bytes(s: string): (t: Text)
    requires IsAscii(s)
    ensures |t| == |s|
  {
    seq(|s|, i requires 0 <= i < |s| => s[i] as int as byte)
  }

  lemma BytesAreInjective(s: string, t: string)
    requires IsAscii(s) && IsAscii(t) && Bytes(s) == Bytes(t)
    ensures s == t
  {
    forall i | 0 <= i < |s| ensures s[i] == t[i] {
      assert Bytes(s)[i] == Bytes(t)[i];
    }
  }

  /** Names are distinct and ASCII. */
  ghost predicate Directory(files: seq<File>) {
    && (forall i :: 0 <= i < |files| ==> IsAscii(files[i].name))
    && (forall i, j :: 0 <= i < j < |files| ==> files[i].name != files[j].name)
  }

  predicate Hidden(name: string) { name != "" && name[0] == '.' }

  predicate Shows(prefix: string, executableOnly: bool, f: File) {
    && (Hidden(prefix) || !Hidden(f.name))
    && SimpleScore(prefix, f.name).Some?
    && (executableOnly ==> f.mode && !f.directory)
  }

  /** Which files a scan shows: dot files only if asked for, those that the query matches, and of the wanted kind. */
  lemma ShownIff(prefix: string, executableOnly: bool, f: File)
    ensures Shows(prefix, executableOnly, f) <==>
      && (f.name != "" && f.name[0] == '.' ==> prefix != "" && prefix[0] == '.')
      && Scattered(prefix, f.name)
      && (executableOnly ==> f.mode && !f.directory)
  {
    MatchesIffSubsequence(prefix, f.name);
    SubsequenceIsScattered(prefix, f.name);
  }

  /** A scan ranks by score, then by name. */
  function RankOf(prefix: string, f: File): Rank
    requires IsAscii(f.name) && SimpleScore(prefix, f.name).Some?
  {
    Rank(0, None, SimpleScore(prefix, f.name).value.score, [], Bytes(f.name))
  }

  /** Everything a scan finds, with its rank. */
  ghost function Found(files: seq<File>, prefix: string, executableOnly: bool): Ranks
    requires Directory(files)
  {
    if files == [] then map[]
    else
      var f := files[|files| - 1];
      var rest := Found(files[..|files| - 1], prefix, executableOnly);
      if Shows(prefix, executableOnly, f) then rest[Bytes(f.name) := RankOf(prefix, f)] else rest
  }

  /** A name is found exactly when its file is shown, with that file's rank. */
  lemma {:induction false} FoundIffShown(files: seq<File>, prefix: string, executableOnly: bool, v: Text)
    requires Directory(files)
    ensures v in Found(files, prefix, executableOnly) <==>
      exists i :: 0 <= i < |files| && Bytes(files[i].name) == v && Shows(prefix, executableOnly, files[i])
    ensures forall i :: 0 <= i < |files| && Bytes(files[i].name) == v && Shows(prefix, executableOnly, files[i]) ==>
      v in Found(files, prefix, executableOnly) && Found(files, prefix, executableOnly)[v] == RankOf(prefix, files[i])
  {
    if files != [] {
      var n := |files| - 1;
      var rest := files[..n];
      FoundIffShown(rest, prefix, executableOnly, v);
      var f := files[n];
      if Bytes(f.name) == v {
        forall i | 0 <= i < n ensures Bytes(files[i].name) != v {
          if Bytes(files[i].name) == v {
            BytesAreInjective(files[i].name, f.name);
          }
        }
      }
      assert forall i :: 0 <= i < n ==> rest[i] == files[i];
    }
  }

  lemma {:induction false} FoundIsUnordered(files: seq<File>, prefix: string, executableOnly: bool)
    requires Directory(files)
    ensures AllUnordered(Found(files, prefix, executableOnly)) && Keyed(Found(files, prefix, executableOnly))
  {
    if files != [] {
      FoundIsUnordered(files[..|files| - 1], prefix, executableOnly);
    }
  }

  /** The next file read has a new name. */
  lemma NextIsNew(files: seq<File>, n: nat, prefix: string, executableOnly: bool)
    requires Directory(files) && n < |files|
    ensures Bytes(files[n].name) !in Found(files[..n], prefix, executableOnly)
  {
    FoundIffShown(files[..n], prefix, executableOnly, Bytes(files[n].name));
    forall i | 0 <= i < n ensures Bytes(files[i].name) != Bytes(files[n].name) {
      if Bytes(files[i].name) == Bytes(files[n].name) {
        BytesAreInjective(files[i].name, files[n].name);
      }
    }
  }

  // ---------------------------------------------------------------------
  // The scan
  // ---------------------------------------------------------------------

  ghost predicate SameFiles(ranked: map<Text, File>, m: Ranks, prefix: string) {
    && ranked.Keys == m.Keys
    && forall v :: v in ranked ==>
         IsAscii(ranked[v].name) && SimpleScore(prefix, ranked[v].name).Some? && m[v] == RankOf(prefix, ranked[v])
  }

  function ScoreOf(prefix: string, f: File): int {
    if SimpleScore(prefix, f.name).Some? then SimpleScore(prefix, f.name).value.score else 0
  }

  /** The comparison of the scan: higher scores first, then names. */
  predicate Precedes(prefix: string, ranked: map<Text, File>, v: Text, w: Text) {
    && v in ranked && w in ranked
    && var a, b := ScoreOf(prefix, ranked[v]), ScoreOf(prefix, ranked[w]);
       a > b || (a == b && Less(v, w))
  }

  /** Sorts what was found and keeps the best. */
  method Best(ranked: map<Text, File>, prefix: string, max: nat, ghost m: Ranks)
    returns (order: seq<Text>, kept: map<Text, File>)
    requires Keyed(m) && SameFiles(ranked, m, prefix)
    ensures order == Take(Listing(m), max)
    ensures SameFiles(kept, Top(m, max), prefix)
    ensures forall v :: v in kept ==> v in ranked && kept[v] == ranked[v]
    ensures forall i :: 0 <= i < |order| ==> order[i] in kept
  {
    hide Before, Precedes, Keyed, Listing, SameFiles, Top, Take;
    order := BestNames(ranked, prefix, max, m);
    kept := KeptFiles(ranked, order);
    BestAreKept(ranked, prefix, max, m, order);
  }

  method BestNames(ranked: map<Text, File>, prefix: string, max: nat, ghost m: Ranks) returns (order: seq<Text>)
    requires Keyed(m) && SameFiles(ranked, m, prefix)
    ensures order == Take(Listing(m), max)
  {
    ComparisonRanks(ranked, prefix, m);
    hide Before, Precedes, Keyed, Listing, SameFiles;
    var all := SortBy(m, ranked.Keys, (v, w) => Precedes(prefix, ranked, v, w));
    order := if |all| > max then all[..max] else all;
  }

  function KeptFiles(ranked: map<Text, File>, order: seq<Text>): map<Text, File> {
    map v | v in ranked && v in order :: ranked[v]
  }

  lemma ComparisonRanks(ranked: map<Text, File>, prefix: string, m: Ranks)
    requires Keyed(m) && SameFiles(ranked, m, prefix)
    ensures ranked.Keys == m.Keys
    ensures forall v, w :: v in m && w in m ==> (Precedes(prefix, ranked, v, w) <==> Before(m[v], m[w]))
  {
  }

  lemma BestAreKept(ranked: map<Text, File>, prefix: string, max: nat, m: Ranks, order: seq<Text>)
    requires Keyed(m) && SameFiles(ranked, m, prefix) && order == Take(Listing(m), max)
    ensures forall v :: v in order ==> v in ranked
    ensures SameFiles(KeptFiles(ranked, order), Top(m, max), prefix)
  {
    hide Before, Listing, Keyed, RankOf, Better;
    TopIsTaken(m, max);
    forall v | v in order ensures v in ranked {
      assert v in Top(m, max);
    }
    var kept := KeptFiles(ranked, order);
    assert kept.Keys == Top(m, max).Keys;
    forall v | v in kept
      ensures IsAscii(kept[v].name) && SimpleScore(prefix, kept[v].name).Some? && Top(m, max)[v] == RankOf(prefix, kept[v])
    {
      assert v in ranked && v in Top(m, max);
    }
    assert SameFiles(kept, Top(m, max), prefix);
  }

  method ScanNext(
    files: seq<File>, n: nat, prefix: string, executableOnly: bool, max: nat,
    ranked: map<Text, File>, ghost m: Ranks, count: nat)
    returns (ranked': map<Text, File>, ghost m': Ranks, count': nat)
    requires Directory(files) && IsAscii(prefix) && n < |files|
    requires Scanned(files, n, prefix, executableOnly, max, ranked, m, count)
    ensures Scanned(files, n + 1, prefix, executableOnly, max, ranked', m', count')
  {
    var f := files[n];
    ranked', m', count' := ranked, m, count;
    var score := MatchScore(prefix, f.name);
    hide Before, Top, Listing, Scanned, Found, SameFiles, FromFiles, Directory, Keyed, RankOf, Take;
    if (Hidden(prefix) || !Hidden(f.name)) && score.Some? && (executableOnly ==> f.mode && !f.directory) {
      ScanShows(files, n, prefix, executableOnly, max, ranked, m, count);
      count' := count + 1;
      m' := m[Bytes(f.name) := RankOf(prefix, f)];
      ranked' := ranked[Bytes(f.name) := f];
      if |ranked'| >= Max(2 * max, 2) {
        ScannedIsSame(files, n + 1, prefix, executableOnly, max, ranked', m', count');
        var _, kept := Best(ranked', prefix, max, m');
        ScanTruncates(files, n + 1, prefix, executableOnly, max, ranked', kept, m', count');
        ranked', m' := kept, Top(m', max);
      }
    } else {
      ScanSkips(files, n, prefix, executableOnly, max, ranked, m, count);
    }
  }

  lemma ScannedIsSame(
    files: seq<File>, n: nat, prefix: string, executableOnly: bool, max: nat, ranked: map<Text, File>, m: Ranks, count: nat)
    requires Scanned(files, n, prefix, executableOnly, max, ranked, m, count)
    ensures Keyed(m) && SameFiles(ranked, m, prefix)
  {
    hide Keyed, SameFiles, Shadow, Found;
  }

  method ListBest(
    files: seq<File>, prefix: string, executableOnly: bool, max: nat, ranked: map<Text, File>, ghost m: Ranks, ghost count: nat)
    returns (entries: seq<Entry>)
    requires Directory(files) && IsAscii(prefix)
    requires Scanned(files, |files|, prefix, executableOnly, max, ranked, m, count)
    ensures Keyed(Found(files, prefix, executableOnly))
    ensures |entries| == |Take(Listing(Found(files, prefix, executableOnly)), max)|
    ensures forall i :: 0 <= i < |entries| ==>
      Lists(files, prefix, executableOnly, entries[i], Take(Listing(Found(files, prefix, executableOnly)), max)[i])
  {
    hide Before, Top, Listing, Scanned, Found, SameFiles, Directory, Keyed, RankOf, Take, Shows;
    ScanEnds(files, prefix, executableOnly, max, ranked, m, count);
    var order, kept := Best(ranked, prefix, max, m);
    entries := EntriesOf(order, kept);
  }

  /** Reads a directory once, never keeping more than twice the wanted names (or two). */
  method ScanDirectory(files: seq<File>, prefix: string, executableOnly: bool, max: nat)
    returns (entries: seq<Entry>, truncated: bool)
    requires Directory(files) && IsAscii(prefix)
    ensures Keyed(Found(files, prefix, executableOnly))
    ensures truncated <==> |Found(files, prefix, executableOnly)| > max
    ensures |entries| == |Take(Listing(Found(files, prefix, executableOnly)), max)|
    ensures forall i :: 0 <= i < |entries| ==>
      Lists(files, prefix, executableOnly, entries[i], Take(Listing(Found(files, prefix, executableOnly)), max)[i])
  {
    var ranked: map<Text, File> := map[];
    var count: nat := 0;
    ghost var m: Ranks := map[];
    var n: nat := 0;
    StartOfScan(files, prefix, executableOnly, max);
    hide Before, Top, Listing, Scanned, Found, SameFiles, FromFiles, Directory, Lists, Keyed, RankOf, Take;
    while n < |files|
      invariant 0 <= n <= |files|
      invariant Scanned(files, n, prefix, executableOnly, max, ranked, m, count)
    {
      ranked, m, count := ScanNext(files, n, prefix, executableOnly, max, ranked, m, count);
      n := n + 1;
    }
    ScanEnds(files, prefix, executableOnly, max, ranked, m, count);
    entries := ListBest(files, prefix, executableOnly, max, ranked, m, count);
    truncated := count > max;
  }

  function EntriesOf(order: seq<Text>, kept: map<Text, File>): seq<Entry>
    requires forall i :: 0 <= i < |order| ==> order[i] in kept
  {
    seq(|order|, i requires 0 <= i < |order| => EntryOf(kept[order[i]]))
  }

  /** An entry reports a shown file of the directory, under its own name. */
  ghost predicate Lists(files: seq<File>, prefix: string, executableOnly: bool, e: Entry, v: Text) {
    && IsAscii(e.name) && Bytes(e.name) == v
    && exists f :: f in files && e == EntryOf(f) && Shows(prefix, executableOnly, f)
  }

  function EntryOf(f: File): Entry { Entry(f.name, KindOf(f)) }

  ghost predicate FromFiles(ranked: map<Text, File>, files: seq<File>, prefix: string, executableOnly: bool) {
    forall v :: v in ranked ==>
      ranked[v] in files && Shows(prefix, executableOnly, ranked[v]) && IsAscii(ranked[v].name) && Bytes(ranked[v].name) == v
  }

  /** After reading `n` files: what is kept has the best of what was found, and all of it was counted. */
  ghost predicate Scanned(
    files: seq<File>, n: nat, prefix: string, executableOnly: bool, max: nat, ranked: map<Text, File>, m: Ranks, count: nat)
  {
    && n <= |files| && Directory(files[..n])
    && Keyed(m) && SameFiles(ranked, m, prefix) && FromFiles(ranked, files, prefix, executableOnly)
    && count == |Found(files[..n], prefix, executableOnly)|
    && Shadow(m, Found(files[..n], prefix, executableOnly), max)
  }

  lemma DirectoryPrefix(files: seq<File>, n: nat)
    requires Directory(files) && n < |files|
    ensures Directory(files[..n]) && Directory(files[..n + 1]) && IsAscii(files[n].name)
    ensures files[..n + 1][..n] == files[..n] && files[..n + 1][n] == files[n]
  {
  }

  lemma StartOfScan(files: seq<File>, prefix: string, executableOnly: bool, max: nat)
    ensures Scanned(files, 0, prefix, executableOnly, max, map[], map[], 0)
  {
    assert files[..0] == [];
  }

  lemma ScanSkips(
    files: seq<File>, n: nat, prefix: string, executableOnly: bool, max: nat, ranked: map<Text, File>, m: Ranks, count: nat)
    requires Directory(files) && n < |files| && Scanned(files, n, prefix, executableOnly, max, ranked, m, count)
    requires !Shows(prefix, executableOnly, files[n])
    ensures Scanned(files, n + 1, prefix, executableOnly, max, ranked, m, count)
  {
    DirectoryPrefix(files, n);
    hide Shadow, SameFiles, FromFiles, Shows, Directory;
  }

  lemma FoundGrows(files: seq<File>, n: nat, prefix: string, executableOnly: bool)
    requires Directory(files) && n < |files| && Shows(prefix, executableOnly, files[n])
    ensures Directory(files[..n]) && Directory(files[..n + 1])
    ensures var all, v := Found(files[..n], prefix, executableOnly), Bytes(files[n].name);
      && v !in all
      && Found(files[..n + 1], prefix, executableOnly) == all[v := RankOf(prefix, files[n])]
      && |Found(files[..n + 1], prefix, executableOnly)| == |all| + 1
  {
    DirectoryPrefix(files, n);
    NextIsNew(files, n, prefix, executableOnly);
    var all, v := Found(files[..n], prefix, executableOnly), Bytes(files[n].name);
    assert all[v := RankOf(prefix, files[n])].Keys == all.Keys + {v};
  }

  lemma ScanShows(
    files: seq<File>, n: nat, prefix: string, executableOnly: bool, max: nat, ranked: map<Text, File>, m: Ranks, count: nat)
    requires Directory(files) && n < |files| && Scanned(files, n, prefix, executableOnly, max, ranked, m, count)
    requires Shows(prefix, executableOnly, files[n])
    ensures IsAscii(files[n].name)
    ensures var v, r := Bytes(files[n].name), RankOf(prefix, files[n]);
      Scanned(files, n + 1, prefix, executableOnly, max, ranked[v := files[n]], m[v := r], count + 1)
  {
    FoundGrows(files, n, prefix, executableOnly);
    var all := Found(files[..n], prefix, executableOnly);
    var v, r := Bytes(files[n].name), RankOf(prefix, files[n]);
    ShadowWithin(m, all, max);
    ShadowOffer(m, all, r, max);
    assert Offer(m, r) == m[v := r] && Offer(all, r) == all[v := r];
    UnorderedAdds(m, r);
    DirectoryPrefix(files, n);
    hide Shadow, Before, Directory, Found, Keyed;
    FilesAdd(files, n, prefix, executableOnly, ranked, m);
  }

  lemma FilesAdd(files: seq<File>, n: nat, prefix: string, executableOnly: bool, ranked: map<Text, File>, m: Ranks)
    requires n < |files| && IsAscii(files[n].name) && Shows(prefix, executableOnly, files[n])
    requires SameFiles(ranked, m, prefix) && FromFiles(ranked, files, prefix, executableOnly)
    ensures var v, r := Bytes(files[n].name), RankOf(prefix, files[n]);
      SameFiles(ranked[v := files[n]], m[v := r], prefix) && FromFiles(ranked[v := files[n]], files, prefix, executableOnly)
  {
    hide Bytes, IsAscii, SimpleScore;
  }

  lemma ShadowWithin(m: Ranks, all: Ranks, max: nat)
    requires Shadow(m, all, max)
    ensures m.Keys <= all.Keys && AllUnordered(m)
  {
  }

  lemma UnorderedAdds(m: Ranks, r: Rank)
    requires Keyed(m) && Unordered(r) && r.value !in m
    requires AllUnordered(m)
    ensures Keyed(m[r.value := r])
  {
  }

  lemma ScanTruncates(
    files: seq<File>, n: nat, prefix: string, executableOnly: bool, max: nat,
    ranked: map<Text, File>, kept: map<Text, File>, m: Ranks, count: nat)
    requires Scanned(files, n, prefix, executableOnly, max, ranked, m, count)
    requires SameFiles(kept, Top(m, max), prefix) && (forall v :: v in kept ==> v in ranked && kept[v] == ranked[v])
    ensures Scanned(files, n, prefix, executableOnly, max, kept, Top(m, max), count)
  {
    TopKeyed(m, max);
    ShadowTruncate(m, Found(files[..n], prefix, executableOnly), max);
    hide Shadow, Top, Before, Directory, Found;
  }

  lemma ScanEnds(
    files: seq<File>, prefix: string, executableOnly: bool, max: nat, ranked: map<Text, File>, m: Ranks, count: nat)
    requires Scanned(files, |files|, prefix, executableOnly, max, ranked, m, count)
    ensures Directory(files) && Keyed(m) && SameFiles(ranked, m, prefix) && AllUnordered(m)
    ensures FromFiles(ranked, files, prefix, executableOnly)
    ensures var all := Found(files, prefix, executableOnly);
      Keyed(all) && count == |all| && Take(Listing(m), max) == Take(Listing(all), max)
  {
    assert files[..|files|] == files;
    var all := Found(files, prefix, executableOnly);
    FoundIsUnordered(files, prefix, executableOnly);
    ShadowWithin(m, all, max);
    ShadowTop(m, all, max);
    hide Shadow, Top, Before, Found;
    TopIsPrefix(m, max);
    TopIsPrefix(all, max);
  }

  function Max(a: nat, b: nat): nat { if a < b then b else a }

  // ---------------------------------------------------------------------
  // A shorter prefix stands in for a longer one
  // ---------------------------------------------------------------------

  predicate Extends(q: string, p: string) {
    |p| <= |q| && q[..|p|] == p
  }

  /** What matches a longer query matches a shorter one. */
  lemma ShorterMatches(p: string, q: string, name: string)
    requires Extends(q, p) && SimpleScore(q, name).Some?
    ensures SimpleScore(p, name).Some?
  {
    MatchesIffSubsequence(q, name);
    MatchesIffSubsequence(p, name);
    var positions :| Embeds(positions, Fold(q), Fold(name), 0);
    assert Fold(q)[..|p|] == Fold(p);
    assert Embeds(positions[..|p|], Fold(p), Fold(name), 0);
  }

  /** The hidden names of a scan depend on its prefix only through the first character. */
  predicate Interchangeable(p: string, q: string) {
    p != "" || !Hidden(q)
  }

  function FilesShown(files: seq<File>, p: string, executableOnly: bool): (shown: seq<File>)
    ensures forall f :: f in shown <==> f in files && Shows(p, executableOnly, f)
  {
    if files == [] then []
    else
      var n := |files| - 1;
      assert files == files[..n] + [files[n]];
      FilesShown(files[..n], p, executableOnly) + if Shows(p, executableOnly, files[n]) then [files[n]] else []
  }

  lemma {:induction false} ShownIsDirectory(files: seq<File>, p: string, executableOnly: bool)
    requires Directory(files)
    ensures Directory(FilesShown(files, p, executableOnly))
  {
    hide Shows;
    if files != [] {
      var n := |files| - 1;
      ShownIsDirectory(files[..n], p, executableOnly);
      var rest := FilesShown(files[..n], p, executableOnly);
      hide FilesShown;
      forall i | 0 <= i < |rest| ensures rest[i].name != files[n].name {
        assert rest[i] in files[..n];
      }
      assert Directory(rest + [files[n]]);
      assert rest + [] == rest;
    }
  }

  /** What a consumer keeps of the files found for `p` when it looks for `q`. */
  ghost function Refined(files: seq<File>, p: string, q: string, executableOnly: bool): Ranks
    requires Directory(files)
  {
    ShownIsDirectory(files, p, executableOnly);
    Found(FilesShown(files, p, executableOnly), q, executableOnly)
  }

  lemma RefinedIsFreshAt(files: seq<File>, p: string, q: string, executableOnly: bool, v: Text)
    requires Directory(files) && Extends(q, p) && Interchangeable(p, q)
    ensures v in Refined(files, p, q, executableOnly) <==> v in Found(files, q, executableOnly)
    ensures v in Found(files, q, executableOnly) ==>
      Refined(files, p, q, executableOnly)[v] == Found(files, q, executableOnly)[v]
  {
    var shown := FilesShown(files, p, executableOnly);
    ShownIsDirectory(files, p, executableOnly);
    FoundIffShown(files, q, executableOnly, v);
    FoundIffShown(shown, q, executableOnly, v);
    hide Found, SimpleScore, Bytes, IsAscii;
    if v in Found(files, q, executableOnly) {
      var i :| 0 <= i < |files| && Bytes(files[i].name) == v && Shows(q, executableOnly, files[i]);
      ShorterMatches(p, q, files[i].name);
      assert files[i] in shown;
      var j :| 0 <= j < |shown| && shown[j] == files[i];
    }
    if v in Found(shown, q, executableOnly) {
      var j :| 0 <= j < |shown| && Bytes(shown[j].name) == v && Shows(q, executableOnly, shown[j]);
      assert shown[j] in files;
    }
  }

  /** Filtering the scan of a shorter prefix gives what a fresh scan gives: the same names with the same scores. */
  lemma RefinedIsFresh(files: seq<File>, p: string, q: string, executableOnly: bool)
    requires Directory(files) && Extends(q, p) && Interchangeable(p, q)
    ensures Refined(files, p, q, executableOnly) == Found(files, q, executableOnly)
  {
    forall v ensures v in Refined(files, p, q, executableOnly) <==> v in Found(files, q, executableOnly) {
      RefinedIsFreshAt(files, p, q, executableOnly, v);
    }
    forall v | v in Found(files, q, executableOnly)
      ensures Refined(files, p, q, executableOnly)[v] == Found(files, q, executableOnly)[v]
    {
      RefinedIsFreshAt(files, p, q, executableOnly, v);
    }
    hide Found, Refined;
  }

  lemma HiddenNameIsLost(q: string)
    requires IsAscii(q) && Hidden(q)
    ensures var files := [File(q, false, true)];
      Directory(files) && Refined(files, "", q, false) != Found(files, q, false)
  {
    var files := [File(q, false, true)];
    var v := Bytes(q);
    assert q[..|q|] == q;
    assert Shows(q, false, files[0]) && !Shows("", false, files[0]);
    FoundIffShown(files, q, false, v);
    ShownIsDirectory(files, "", false);
    assert files[..0] == [];
    assert FilesShown(files, "", false) == [];
    assert v !in Refined(files, "", q, false);
  }

  /** The two prefixes alone decide whether the shorter scan is a lossless superset, whatever the directory. */
  lemma StandInIsExact(p: string, q: string)
    requires Extends(q, p) && IsAscii(q)
    ensures Interchangeable(p, q) <==>
      forall files: seq<File>, executableOnly: bool :: Directory(files) ==>
        Refined(files, p, q, executableOnly) == Found(files, q, executableOnly)
  {
    if Interchangeable(p, q) {
      forall files: seq<File>, executableOnly: bool | Directory(files)
        ensures Refined(files, p, q, executableOnly) == Found(files, q, executableOnly)
      {
        RefinedIsFresh(files, p, q, executableOnly);
      }
    } else {
      HiddenNameIsLost(q);
    }
  }

  // ---------------------------------------------------------------------
  // Choosing a cached scan
  // ---------------------------------------------------------------------

  const MAX_PATH_COMPONENT_BYTES: nat := 4096

  datatype CacheEntry = CacheEntry(entries: seq<Entry>, truncated: bool)

  const OVERSIZED_QUERY: ScanKey := ScanKey("", "\0bashlume:oversized-directory-query", false)

  predicate Serves(cache: map<ScanKey, CacheEntry>, k: ScanKey, directory: string, prefix: string) {
    && k in cache && k.directory == directory && !k.executableOnly && Extends(prefix, k.prefix) && !cache[k].truncated
  }

  /** The exact scan if there is one, else the complete scan with the longest shorter prefix, else the exact key. */
  method ChooseScan(cache: map<ScanKey, CacheEntry>, directory: string, prefix: string) returns (key: ScanKey)
    ensures |directory| > MAX_PATH_COMPONENT_BYTES || |prefix| > MAX_PATH_COMPONENT_BYTES ==> key == OVERSIZED_QUERY
    ensures |directory| <= MAX_PATH_COMPONENT_BYTES && |prefix| <= MAX_PATH_COMPONENT_BYTES ==>
      var exact := ScanKey(directory, prefix, false);
      && (key == exact || Serves(cache, key, directory, prefix))
      && key.directory == directory && !key.executableOnly && key.prefix <= prefix
      && (key != exact ==> key in cache && !cache[key].truncated)
      && (exact in cache ==> key == exact)
      && (exact !in cache ==> forall k :: Serves(cache, k, directory, prefix) ==>
            Serves(cache, key, directory, prefix) && |k.prefix| <= |key.prefix|)
  {
    if |directory| > MAX_PATH_COMPONENT_BYTES || |prefix| > MAX_PATH_COMPONENT_BYTES {
      return OVERSIZED_QUERY;
    }
    key := ScanKey(directory, prefix, false);
    if key in cache {
      return;
    }
    var best: Option<ScanKey> := None;
    var rest := cache.Keys;
    while rest != {}
      invariant rest <= cache.Keys
      invariant best.Some? ==> Serves(cache, best.value, directory, prefix)
      invariant forall k :: Serves(cache, k, directory, prefix) && k !in rest ==>
        best.Some? && |k.prefix| <= |best.value.prefix|
      decreases |rest|
    {
      var k :| k in rest;
      if Serves(cache, k, directory, prefix) && (best.None? || |k.prefix| >= |best.value.prefix|) {
        best := Some(k);
      }
      rest := rest - {k};
    }
    if best.Some? {
      key := best.value;
    }
  }
}
