/** The synchronisation script: the staleness rule, the emptiness of the diff,
    the selection of the update batch, the confirmation rule and the copy loop,
    over an abstract filesystem. */
module SyncConfigs {
  import opened PyText
  import opened OsPath

  // ---------------------------------------------------------------------
  // The filesystem
  // ---------------------------------------------------------------------

  /** What the script observes about one regular file: its modification time,
      whether opening and reading it succeeds without an OSError, and its text. */
  datatype FileRecord = FileRecord(mtime: int, readable: bool, content: string)

  /** Regular files by path, and the directories that exist. */
  datatype FileSystem = FileSystem(files: map<string, FileRecord>, dirs: set<string>)

  /** One entry of FILE_PAIRS. */
  datatype FilePair = FilePair(src: string, dst: string)

  /** `os.path.exists(path)` for a file path. */
  predicate Exists(fs: FileSystem, path: string) {
    path in fs.files
  }

  /** Both maps agree at `q`: present in both with one record, or absent from both. */
  predicate SameAt(m1: map<string, FileRecord>, m2: map<string, FileRecord>, q: string) {
    (q in m1 <==> q in m2) && (q in m1 && q in m2 ==> m1[q] == m2[q])
  }

  /** The pair list is well formed: two pairs with one destination are the same
      pair, and no destination is also a source (of any pair). */
  predicate ValidPairs(pairs: seq<FilePair>) {
    forall p, q :: p in pairs && q in pairs ==> (p.dst == q.dst ==> p == q) && p.dst != q.src
  }

  // ---------------------------------------------------------------------
  // file_is_newer
  // ---------------------------------------------------------------------

  /** `file_is_newer(src, dst)`: a missing source is never newer, a missing
      destination is always out of date, otherwise modification times are
      compared strictly. */
  function FileIsNewer(fs: FileSystem, src: string, dst: string): (r: bool)
    ensures !Exists(fs, src) ==> !r
    ensures Exists(fs, src) && !Exists(fs, dst) ==> r
    ensures Exists(fs, src) && Exists(fs, dst) ==> (r <==> fs.files[src].mtime > fs.files[dst].mtime)
  {
    if !Exists(fs, src) then false
    else if !Exists(fs, dst) then true
    else fs.files[src].mtime > fs.files[dst].mtime
  }

  /** Equal modification times are not stale, whatever the contents. */
  lemma EqualMtimesNotStale(fs: FileSystem, src: string, dst: string)
    requires Exists(fs, src) && Exists(fs, dst)
    requires fs.files[src].mtime == fs.files[dst].mtime
    ensures !FileIsNewer(fs, src, dst)
  {
  }

  // ---------------------------------------------------------------------
  // file_diff
  // ---------------------------------------------------------------------

  /** The text `file_diff` returns, kept abstract: the `""` returned after a
      read error, the source text returned verbatim, or the output of
      `difflib.unified_diff`, recorded by the arguments of the call. */
  datatype DiffText =
    | ReadError
    | Verbatim(text: string)
    | UnifiedDiff(a: seq<string>, b: seq<string>, fromFile: string, toFile: string)

  /** `not diff`. For a unified diff this is difflib's behaviour taken as
      given: it produces no line exactly when its two line lists are equal. */
  predicate IsEmpty(d: DiffText) {
    match d
    case ReadError => true
    case Verbatim(t) => t == ""
    case UnifiedDiff(a, b, _, _) => a == b
  }

  /** `file_diff(src, dst)` exactly as written: the source's lines are passed
      as the side labelled with the destination's path. */
  function FileDiffAsWritten(fs: FileSystem, src: string, dst: string): (r: DiffText)
    ensures r.Verbatim? ==>
      && src in fs.files && fs.files[src].readable && dst !in fs.files
      && r.text == fs.files[src].content
    ensures r.UnifiedDiff? ==>
      && r.fromFile == dst && r.toFile == src
      && src in fs.files && fs.files[src].readable
      && dst in fs.files && fs.files[dst].readable
      && r.a == Lines(fs.files[src].content) && r.b == Lines(fs.files[dst].content)
  {
    JoinLines(if src in fs.files then fs.files[src].content else "");
    if src !in fs.files || !fs.files[src].readable then ReadError
    else if dst !in fs.files then Verbatim(Join(Lines(fs.files[src].content)))
    else if !fs.files[dst].readable then ReadError
    else UnifiedDiff(Lines(fs.files[src].content), Lines(fs.files[dst].content), dst, src)
  }

  /** `file_diff(src, dst)` with the line lists in the order of their labels:
      from the destination to the source. */
  function FileDiff(fs: FileSystem, src: string, dst: string): (r: DiffText)
    ensures r.Verbatim? ==>
      && src in fs.files && fs.files[src].readable && dst !in fs.files
      && r.text == fs.files[src].content
    ensures r.UnifiedDiff? ==>
      && r.fromFile == dst && r.toFile == src
      && src in fs.files && fs.files[src].readable
      && dst in fs.files && fs.files[dst].readable
      && r.a == Lines(fs.files[dst].content) && r.b == Lines(fs.files[src].content)
  {
    if src !in fs.files || !fs.files[src].readable then ReadError
    else if dst !in fs.files then
      JoinLines(fs.files[src].content);
      Verbatim(Join(Lines(fs.files[src].content)))
    else if !fs.files[dst].readable then ReadError
    else UnifiedDiff(Lines(fs.files[dst].content), Lines(fs.files[src].content), dst, src)
  }

  /** When the diff is empty: a missing or unreadable source, an unreadable
      destination, an empty source with no destination, or two readable files
      with the same text. */
  lemma {:induction false} FileDiffEmptiness(fs: FileSystem, src: string, dst: string)
    ensures IsEmpty(FileDiff(fs, src, dst)) <==>
      || src !in fs.files
      || !fs.files[src].readable
      || (dst in fs.files && !fs.files[dst].readable)
      || (dst !in fs.files && fs.files[src].content == "")
      || (dst in fs.files && fs.files[dst].content == fs.files[src].content)
  {
    if src in fs.files && fs.files[src].readable && dst in fs.files && fs.files[dst].readable {
      var a, b := fs.files[dst].content, fs.files[src].content;
      if Lines(a) == Lines(b) {
        LinesInjective(a, b);
      }
    }
  }

  /** As written, the side labelled with the destination's path carries the
      destination's lines only when both files hold the same text. */
  lemma {:induction false} DiffSidesSwappedAsWritten(fs: FileSystem, src: string, dst: string)
    requires src in fs.files && fs.files[src].readable
    requires dst in fs.files && fs.files[dst].readable
    ensures var d := FileDiffAsWritten(fs, src, dst);
      && d.UnifiedDiff? && d.fromFile == dst && d.toFile == src
      && (d.a == Lines(fs.files[d.fromFile].content) <==> fs.files[src].content == fs.files[dst].content)
  {
    var a, b := fs.files[src].content, fs.files[dst].content;
    if Lines(a) == Lines(b) {
      LinesInjective(a, b);
    }
  }

  /** A concrete case: source "a\n", destination "b\n". The as-written diff
      labels the source's line list with the destination's name. */
  lemma DiffSidesSwappedExample()
    ensures var fs := FileSystem(map["s" := FileRecord(2, true, "a\n"), "d" := FileRecord(1, true, "b\n")], {});
      var d := FileDiffAsWritten(fs, "s", "d");
      d.UnifiedDiff? && d.fromFile == "d" && d.a != Lines(fs.files["d"].content)
  {
    var fs := FileSystem(map["s" := FileRecord(2, true, "a\n"), "d" := FileRecord(1, true, "b\n")], {});
    DiffSidesSwappedAsWritten(fs, "s", "d");
  }

  /** Corrected, each side of the unified diff carries the lines of the file
      its label names. */
  lemma DiffSidesMatchLabels(fs: FileSystem, src: string, dst: string)
    requires src in fs.files && fs.files[src].readable
    requires dst in fs.files && fs.files[dst].readable
    ensures var d := FileDiff(fs, src, dst);
      && d.UnifiedDiff?
      && d.fromFile in fs.files && d.a == Lines(fs.files[d.fromFile].content)
      && d.toFile in fs.files && d.b == Lines(fs.files[d.toFile].content)
  {
  }

  /** The order of the line lists does not change whether the diff is empty,
      so the sync decisions are the same with either form. */
  lemma DiffEmptinessUnaffected(fs: FileSystem, src: string, dst: string)
    ensures IsEmpty(FileDiffAsWritten(fs, src, dst)) == IsEmpty(FileDiff(fs, src, dst))
  {
  }

  // ---------------------------------------------------------------------
  // The update batch (first loop of sync_files)
  // ---------------------------------------------------------------------

  /** A pair joins the update batch: its source is newer and the diff is not empty. */
  predicate NeedsUpdate(fs: FileSystem, p: FilePair) {
    FileIsNewer(fs, p.src, p.dst) && !IsEmpty(FileDiff(fs, p.src, p.dst))
  }

  /** Only stale, changed, existing, readable sources are selected: either the
      destination is missing and the source is not empty, or both files are
      readable, the source is strictly newer and the texts differ. */
  lemma NeedsUpdateMeans(fs: FileSystem, p: FilePair)
    ensures NeedsUpdate(fs, p) <==>
      && p.src in fs.files && fs.files[p.src].readable
      && (if p.dst !in fs.files then fs.files[p.src].content != ""
          else && fs.files[p.dst].readable
               && fs.files[p.src].mtime > fs.files[p.dst].mtime
               && fs.files[p.src].content != fs.files[p.dst].content)
  {
    FileDiffEmptiness(fs, p.src, p.dst);
  }

  /** A pair's decision depends on its own two paths only. */
  lemma NeedsUpdateLocal(fs1: FileSystem, fs2: FileSystem, p: FilePair)
    requires SameAt(fs1.files, fs2.files, p.src) && SameAt(fs1.files, fs2.files, p.dst)
    ensures NeedsUpdate(fs1, p) == NeedsUpdate(fs2, p)
  {
  }

  /** `updated_files` after the first loop: the pairs, in order, that need an update. */
  function Batch(fs: FileSystem, pairs: seq<FilePair>): (b: seq<FilePair>)
    ensures |b| <= |pairs|
    ensures forall p :: p in b ==> p in pairs && NeedsUpdate(fs, p)
    decreases |pairs|
  {
    if pairs == [] then []
    else
      var init := Batch(fs, pairs[..|pairs| - 1]);
      var p := pairs[|pairs| - 1];
      assert forall q :: q in pairs[..|pairs| - 1] ==> q in pairs;
      if NeedsUpdate(fs, p) then init + [p] else init
  }

  /** Every pair that needs an update is in the batch. */
  lemma {:induction false} BatchComplete(fs: FileSystem, pairs: seq<FilePair>, p: FilePair)
    requires p in pairs && NeedsUpdate(fs, p)
    ensures p in Batch(fs, pairs)
    decreases |pairs|
  {
    var init := pairs[..|pairs| - 1];
    if p != pairs[|pairs| - 1] {
      assert pairs == init + [pairs[|pairs| - 1]];
      BatchComplete(fs, init, p);
    }
  }

  /** The batch keeps the order of the pair list: selecting from a
      concatenation concatenates the selections. */
  lemma {:induction false} BatchAppend(fs: FileSystem, xs: seq<FilePair>, ys: seq<FilePair>)
    ensures Batch(fs, xs + ys) == Batch(fs, xs) + Batch(fs, ys)
    decreases |ys|
  {
    if ys == [] {
      assert xs + ys == xs;
    } else {
      var ys' := ys[..|ys| - 1];
      assert (xs + ys)[..|xs + ys| - 1] == xs + ys';
      assert (xs + ys)[|xs + ys| - 1] == ys[|ys| - 1];
      BatchAppend(fs, xs, ys');
    }
  }

  /** A one-pair list is selected exactly when the pair needs an update. */
  lemma BatchOne(fs: FileSystem, p: FilePair)
    ensures Batch(fs, [p]) == if NeedsUpdate(fs, p) then [p] else []
  {
    assert [p][..0] == [];
  }

  /** The batch is empty exactly when no pair needs an update. */
  lemma BatchEmpty(fs: FileSystem, pairs: seq<FilePair>)
    ensures Batch(fs, pairs) == [] <==> forall p :: p in pairs ==> !NeedsUpdate(fs, p)
  {
    if exists p :: p in pairs && NeedsUpdate(fs, p) {
      var p :| p in pairs && NeedsUpdate(fs, p);
      BatchComplete(fs, pairs, p);
    }
  }

  /** The first loop of `sync_files`: appends each pair that needs an update. */
  method SelectBatch(fs: FileSystem, pairs: seq<FilePair>) returns (batch: seq<FilePair>)
    ensures batch == Batch(fs, pairs)
  {
    batch := [];
    for i := 0 to |pairs|
      invariant batch == Batch(fs, pairs[..i])
    {
      var p := pairs[i];
      assert pairs[..i + 1][..i] == pairs[..i];
      if FileIsNewer(fs, p.src, p.dst) {
        var diff := FileDiff(fs, p.src, p.dst);
        if !IsEmpty(diff) {
          batch := batch + [p];
        }
      }
    }
    assert pairs[..|pairs|] == pairs;
  }

  // ---------------------------------------------------------------------
  // Confirmation
  // ---------------------------------------------------------------------

  /** The answer after `.strip().lower()`. */
  function Normalise(answer: string): string {
    Lower(Strip(answer))
  }

  /** `confirm in ("y", "yes")`, where `confirm` is "yes" under auto-approval
      and the normalised answer otherwise. */
  predicate Confirmed(autoApprove: bool, answer: string) {
    var confirm := if autoApprove then "yes" else Normalise(answer);
    confirm == "y" || confirm == "yes"
  }

  /** Whitespace around the answer does not matter. */
  lemma ConfirmedIgnoresPadding(w1: string, answer: string, w2: string)
    requires AllSpace(w1) && AllSpace(w2)
    ensures Confirmed(false, w1 + answer + w2) <==> Confirmed(false, answer)
  {
    StripPadded(w1, answer, w2);
  }

  /** Letter case in the answer does not matter. */
  lemma ConfirmedIgnoresCase(s: string, t: string)
    requires Lower(s) == Lower(t)
    ensures Confirmed(false, s) <==> Confirmed(false, t)
  {
    StripLower(s);
    StripLower(t);
  }

  /** The empty answer cancels. */
  lemma EmptyAnswerCancels()
    ensures !Confirmed(false, "")
  {
    assert Strip("") == "";
  }

  /** A single letter other than y cancels; "n" is one. */
  lemma LetterAnswer(c: char)
    requires !IsSpace(c)
    ensures Confirmed(false, [c]) <==> LowerChar(c) == 'y'
  {
    assert StripLeft([c]) == [c];
    assert StripRight([c]) == [c];
    assert Lower([c]) == [LowerChar(c)];
  }

  /** "YES" confirms; with ConfirmedIgnoresPadding, so does "  YES\n". */
  lemma UpperYesConfirms()
    ensures Confirmed(false, "YES")
  {
    var s := "YES";
    assert Strip(s) == s by {
      assert !IsSpace(s[0]);
      assert StripLeft(s) == s;
      assert !IsSpace(s[2]);
    }
    assert Lower(s) == "yes" by {
      assert Lower(s)[0] == 'y' && Lower(s)[1] == 'e' && Lower(s)[2] == 's';
    }
  }

  // ---------------------------------------------------------------------
  // The copy loop (second loop of sync_files)
  // ---------------------------------------------------------------------

  /** `shutil.copy2(src, dst)`: the destination receives the source's record:
      its text, its modification time and its `readable` flag. */
  function Copy2(files: map<string, FileRecord>, src: string, dst: string): (r: map<string, FileRecord>)
    requires src in files
    ensures r.Keys == files.Keys + {dst}
    ensures r[dst] == files[src]
    ensures forall q :: q != dst ==> SameAt(r, files, q)
  {
    files[dst := files[src]]
  }

  predicate SourcesExist(fs: FileSystem, batch: seq<FilePair>) {
    forall p :: p in batch ==> p.src in fs.files
  }

  /** One iteration of the copy loop: make the parent directories, then copy. */
  function CopyPair(fs: FileSystem, p: FilePair): FileSystem
    requires p.src in fs.files
  {
    FileSystem(Copy2(fs.files, p.src, p.dst), MakeDirs(fs.dirs, Dirname(p.dst)))
  }

  /** The filesystem after copying every pair of the batch, first to last. */
  function ApplyAll(fs: FileSystem, batch: seq<FilePair>): FileSystem
    requires SourcesExist(fs, batch)
    decreases |batch|
  {
    if batch == [] then fs
    else ApplyAll(CopyPair(fs, batch[0]), batch[1..])
  }

  function Dsts(batch: seq<FilePair>): set<string> {
    set p | p in batch :: p.dst
  }

  /** The directories the copy loop creates. */
  function AddedDirs(batch: seq<FilePair>): set<string>
    decreases |batch|
  {
    if batch == [] then {} else DirChain(Dirname(batch[0].dst)) + AddedDirs(batch[1..])
  }

  lemma DstsCons(batch: seq<FilePair>)
    requires batch != []
    ensures Dsts(batch) == {batch[0].dst} + Dsts(batch[1..])
  {
    assert batch == [batch[0]] + batch[1..];
  }

  /** One copy step keeps the sources of the rest of the batch in place. */
  lemma SourcesExistStep(fs: FileSystem, batch: seq<FilePair>)
    requires batch != [] && SourcesExist(fs, batch)
    ensures SourcesExist(CopyPair(fs, batch[0]), batch[1..])
  {
    var files1 := CopyPair(fs, batch[0]).files;
    assert files1.Keys == fs.files.Keys + {batch[0].dst};
    forall p | p in batch[1..]
      ensures p.src in files1
    {
      assert p in batch;
    }
  }

  /** After the copy loop the files are the old ones plus the destinations. */
  lemma {:induction false} ApplyAllKeys(fs: FileSystem, batch: seq<FilePair>)
    requires SourcesExist(fs, batch)
    ensures ApplyAll(fs, batch).files.Keys == fs.files.Keys + Dsts(batch)
    decreases |batch|
  {
    if batch != [] {
      var fs1 := CopyPair(fs, batch[0]);
      assert fs1.files.Keys == fs.files.Keys + {batch[0].dst};
      SourcesExistStep(fs, batch);
      DstsCons(batch);
      ApplyAllKeys(fs1, batch[1..]);
    }
  }

  /** The copy loop leaves every path outside the destinations as it was. */
  lemma {:induction false} ApplyAllOutside(fs: FileSystem, batch: seq<FilePair>, q: string)
    requires SourcesExist(fs, batch)
    requires q !in Dsts(batch)
    ensures SameAt(ApplyAll(fs, batch).files, fs.files, q)
    decreases |batch|
  {
    if batch != [] {
      var fs1 := CopyPair(fs, batch[0]);
      assert q != batch[0].dst by { assert batch[0] in batch; }
      assert SameAt(fs1.files, fs.files, q);
      SourcesExistStep(fs, batch);
      DstsCons(batch);
      ApplyAllOutside(fs1, batch[1..], q);
    }
  }

  /** The copy loop touches no path outside the batch's destinations, and
      every destination exists afterwards. */
  lemma ApplyAllKeepsOthers(fs: FileSystem, batch: seq<FilePair>)
    requires SourcesExist(fs, batch)
    ensures var r := ApplyAll(fs, batch);
      && (forall q :: q !in Dsts(batch) ==> SameAt(r.files, fs.files, q))
      && r.files.Keys == fs.files.Keys + Dsts(batch)
  {
    ApplyAllKeys(fs, batch);
    forall q | q !in Dsts(batch)
      ensures SameAt(ApplyAll(fs, batch).files, fs.files, q)
    {
      ApplyAllOutside(fs, batch, q);
    }
  }

  /** The copy loop creates exactly the parents of the batch's destinations. */
  lemma {:induction false} ApplyAllDirs(fs: FileSystem, batch: seq<FilePair>)
    requires SourcesExist(fs, batch)
    ensures ApplyAll(fs, batch).dirs == fs.dirs + AddedDirs(batch)
    decreases |batch|
  {
    if batch != [] {
      var fs1 := CopyPair(fs, batch[0]);
      assert forall p :: p in batch[1..] ==> p in batch;
      ApplyAllDirs(fs1, batch[1..]);
    }
  }

  /** In a well-formed batch each destination ends with its source's record. */
  lemma {:induction false} ApplyAllCopies(fs: FileSystem, batch: seq<FilePair>)
    requires SourcesExist(fs, batch) && ValidPairs(batch)
    ensures var r := ApplyAll(fs, batch);
      forall p :: p in batch ==> p.dst in r.files && r.files[p.dst] == fs.files[p.src]
    decreases |batch|
  {
    if batch != [] {
      var p0, rest := batch[0], batch[1..];
      var fs1 := CopyPair(fs, p0);
      assert forall p :: p in rest ==> p in batch;
      ApplyAllCopies(fs1, rest);
      ApplyAllKeepsOthers(fs1, rest);
      var r := ApplyAll(fs1, rest);
      var files1 := fs1.files;
      assert files1 == Copy2(fs.files, p0.src, p0.dst);
      forall p | p in batch
        ensures p.dst in r.files && r.files[p.dst] == fs.files[p.src]
      {
        assert p.src != p0.dst;
        assert SameAt(files1, fs.files, p.src);
        if p in rest {
          assert r.files[p.dst] == files1[p.src];
        } else {
          assert p == p0;
          assert p0.dst !in Dsts(rest);
          assert SameAt(r.files, files1, p0.dst);
          assert files1[p0.dst] == fs.files[p0.src];
        }
      }
    }
  }

  /** What the copy loop does to a well-formed batch: each destination ends
      with its source's record, no other path changes, and the directories
      grow by the parents of the destinations. */
  lemma ApplyAllEffect(fs: FileSystem, batch: seq<FilePair>)
    requires SourcesExist(fs, batch) && ValidPairs(batch)
    ensures var r := ApplyAll(fs, batch);
      && (forall p :: p in batch ==> p.dst in r.files && r.files[p.dst] == fs.files[p.src])
      && (forall q :: q !in Dsts(batch) ==> SameAt(r.files, fs.files, q))
      && r.files.Keys == fs.files.Keys + Dsts(batch)
      && r.dirs == fs.dirs + AddedDirs(batch)
  {
    ApplyAllCopies(fs, batch);
    ApplyAllKeepsOthers(fs, batch);
    ApplyAllDirs(fs, batch);
  }

  /** Every destination of the batch has its parent among the directories the
      copy loop creates (or the current directory). */
  lemma {:induction false} AddedDirsHoldParents(dirs: set<string>, batch: seq<FilePair>, p: FilePair)
    requires p in batch
    ensures ParentPresent(dirs + AddedDirs(batch), p.dst)
    decreases |batch|
  {
    if p != batch[0] {
      AddedDirsHoldParents(dirs, batch[1..], p);
    }
  }

  /** The copy loop of `sync_files`. */
  method CopyBatch(fs: FileSystem, batch: seq<FilePair>) returns (r: FileSystem)
    requires SourcesExist(fs, batch)
    ensures r == ApplyAll(fs, batch)
  {
    r := fs;
    for i := 0 to |batch|
      invariant SourcesExist(r, batch[i..])
      invariant ApplyAll(r, batch[i..]) == ApplyAll(fs, batch)
    {
      var p := batch[i];
      assert p in batch[i..];
      assert batch[i..][1..] == batch[i + 1..];
      r := r.(dirs := MakeDirs(r.dirs, Dirname(p.dst)));
      r := r.(files := Copy2(r.files, p.src, p.dst));
    }
  }

  /** After a confirmed run, running again selects nothing: every copied
      destination now has its source's modification time, and every other
      pair's two files are untouched. */
  lemma SecondRunFindsNothing(fs: FileSystem, pairs: seq<FilePair>)
    requires ValidPairs(pairs)
    ensures SourcesExist(fs, Batch(fs, pairs))
    ensures Batch(ApplyAll(fs, Batch(fs, pairs)), pairs) == []
  {
    var b := Batch(fs, pairs);
    ApplyAllEffect(fs, b);
    var r := ApplyAll(fs, b);
    forall p | p in pairs
      ensures !NeedsUpdate(r, p)
    {
      assert p.src !in Dsts(b);
      assert SameAt(r.files, fs.files, p.src);
      if p in b {
        EqualMtimesNotStale(r, p.src, p.dst);
      } else {
        if !NeedsUpdate(fs, p) {
          assert p.dst !in Dsts(b);
          assert SameAt(r.files, fs.files, p.dst);
          NeedsUpdateLocal(r, fs, p);
        } else {
          BatchComplete(fs, pairs, p);
        }
      }
    }
    BatchEmpty(r, pairs);
  }

  // ---------------------------------------------------------------------
  // sync_files
  // ---------------------------------------------------------------------

  /** How a run ends: nothing to do, the user cancelled, or the batch was copied. */
  datatype Outcome = AllUpToDate | Cancelled | Updated

  /** `sync_files(auto_approve)`. The `input()` answer is the parameter
      `answer`, read only when `prompted` is true. */
  method SyncFiles(fs: FileSystem, pairs: seq<FilePair>, autoApprove: bool, answer: string)
    returns (fs': FileSystem, batch: seq<FilePair>, prompted: bool, outcome: Outcome)
    ensures batch == Batch(fs, pairs)
    ensures prompted <==> batch != [] && !autoApprove
    ensures outcome == if batch == [] then AllUpToDate
                       else if Confirmed(autoApprove, answer) then Updated
                       else Cancelled
    ensures outcome != Updated ==> fs' == fs
    ensures outcome == Updated ==> SourcesExist(fs, batch) && fs' == ApplyAll(fs, batch)
    ensures ValidPairs(pairs) && outcome == Updated ==>
      && (forall p :: p in batch ==>
            p.dst in fs'.files && fs'.files[p.dst] == fs.files[p.src] && ParentPresent(fs'.dirs, p.dst))
      && (forall q :: q !in Dsts(batch) ==> SameAt(fs'.files, fs.files, q))
      && fs.dirs <= fs'.dirs
      && Batch(fs', pairs) == []
  {
    batch := SelectBatch(fs, pairs);
    fs', prompted := fs, false;
    if batch == [] {
      outcome := AllUpToDate;
      return;
    }
    var confirm: string;
    if autoApprove {
      confirm := "yes";
    } else {
      prompted := true;
      confirm := Normalise(answer);
    }
    if confirm == "y" || confirm == "yes" {
      fs' := CopyBatch(fs, batch);
      outcome := Updated;
      if ValidPairs(pairs) {
        ApplyAllEffect(fs, batch);
        forall p | p in batch
          ensures ParentPresent(fs'.dirs, p.dst)
        {
          AddedDirsHoldParents(fs.dirs, batch, p);
        }
        SecondRunFindsNothing(fs, pairs);
      }
    } else {
      outcome := Cancelled;
    }
  }
}
