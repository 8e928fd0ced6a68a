/** Deleting the files of an upload document: the main file and then every size
    variant, one after the other, under the collection's static directory.

    The filesystem is a set of paths. A path in `faulty` is one whose existence
    check or unlink fails; a path that is simply absent is skipped without error. */
module UploadFiles {
  import opened Common

  /** A `filename` property as it reads inside a template string. */
  datatype FileName = Named(s: string) | NullName | Undefined

  /** A value of `doc.sizes`: the size's file data, or a null entry. */
  datatype SizeEntry = SizeData(filename: FileName) | NullSize

  /** The document being deleted: its `filename` and its `sizes` (None when absent or falsy),
      with the sizes in `Object.values` order. */
  datatype UploadDoc = UploadDoc(filename: FileName, sizes: Option<seq<SizeEntry>>)

  /** One path to delete, or the size entry whose `.filename` cannot be read. */
  datatype Target = PathTarget(path: string) | UnreadableSize

  /** The outcome of a deletion run: the error it stopped on, if any, and the
      paths still present. */
  datatype Deletion = Deletion(error: Option<Error>, remaining: set<string>)

  /** `${v}` for a file name. */
  function FileNameText(f: FileName): string {
    match f
    case Named(s) => s
    case NullName => "null"
    case Undefined => "undefined"
  }

  /** `${staticPath}/${filename}`. */
  function FilePath(staticPath: string, f: FileName): string {
    staticPath + "/" + FileNameText(f)
  }

  function SizeTarget(staticPath: string, size: SizeEntry): Target {
    match size
    case SizeData(f) => PathTarget(FilePath(staticPath, f))
    case NullSize => UnreadableSize
  }

  /** The paths the operation visits, in order: the main file, then the sizes. */
  function Targets(staticPath: string, doc: UploadDoc): (ts: seq<Target>)
    ensures |ts| >= 1 && ts[0] == PathTarget(FilePath(staticPath, doc.filename))
    ensures doc.sizes.None? ==> |ts| == 1
    ensures doc.sizes.Some? ==> (|ts| == 1 + |doc.sizes.value|
      && forall i :: 0 <= i < |doc.sizes.value| ==> ts[i + 1] == SizeTarget(staticPath, doc.sizes.value[i]))
  {
    [PathTarget(FilePath(staticPath, doc.filename))]
    + (if doc.sizes.Some? then seq(|doc.sizes.value|, i requires 0 <= i < |doc.sizes.value| => SizeTarget(staticPath, doc.sizes.value[i]))
       else [])
  }

  /** Visiting the targets in order: an unreadable size throws a TypeError, a
      faulty path throws ErrorDeletingFile, and either stops the run; otherwise the
      path is removed when present. */
  function Unlink(present: set<string>, faulty: set<string>, targets: seq<Target>): Deletion
    decreases |targets|
  {
    if targets == [] then Deletion(None, present)
    else match targets[0]
      case UnreadableSize => Deletion(Some(TypeError), present)
      case PathTarget(p) =>
        if p in faulty then Deletion(Some(ErrorDeletingFile), present)
        else Unlink(present - {p}, faulty, targets[1..])
  }

  /** `deleteAssociatedFiles`: `staticPath` is the resolved static directory when
      the collection has an upload config, None when it has none. */
  function DeleteAssociatedFilesSpec(staticPath: Option<string>, overrideDelete: bool, filesToSave: nat,
                                     doc: UploadDoc, present: set<string>, faulty: set<string>): Deletion
  {
    if staticPath.None? then Deletion(None, present)
    else if !(overrideDelete || filesToSave > 0) then Deletion(None, present)
    else Unlink(present, faulty, Targets(staticPath.value, doc))
  }

  /** The disk: the paths present and the paths whose check or unlink fails. */
  class FileSystem {
    var files: set<string>
    var faulty: set<string>

    constructor (files: set<string>, faulty: set<string>)
      ensures this.files == files && this.faulty == faulty
    {
      this.files := files;
      this.faulty := faulty;
    }

    /** `if (await fileExists(p)) fs.unlinkSync(p)`, with any failure reported. */
    method RemoveIfPresent(p: string) returns (failed: bool)
      modifies this
      ensures failed <==> p in faulty
      ensures faulty == old(faulty)
      ensures files == if failed then old(files) else old(files) - {p}
    {
      if p in faulty {
        return true;
      }
      files := files - {p};
      return false;
    }
  }

  /** The operation, unlinking one path at a time. */
  method DeleteAssociatedFiles(fs: FileSystem, staticPath: Option<string>, overrideDelete: bool,
                               filesToSave: nat, doc: UploadDoc)
    returns (error: Option<Error>)
    modifies fs
    ensures fs.faulty == old(fs.faulty)
    ensures Deletion(error, fs.files) == DeleteAssociatedFilesSpec(staticPath, overrideDelete, filesToSave, doc, old(fs.files), fs.faulty)
  {
    if staticPath.None? {
      return None;
    }
    if !(overrideDelete || filesToSave > 0) {
      return None;
    }
    var dir := staticPath.value;
    ghost var targets := Targets(dir, doc);
    var failed := fs.RemoveIfPresent(FilePath(dir, doc.filename));
    if failed {
      return Some(ErrorDeletingFile);
    }
    assert Unlink(old(fs.files), fs.faulty, targets) == Unlink(fs.files, fs.faulty, targets[1..]);
    if doc.sizes.Some? {
      var sizes := doc.sizes.value;
      var i := 0;
      while i < |sizes|
        invariant 0 <= i <= |sizes|
        invariant fs.faulty == old(fs.faulty)
        invariant Unlink(old(fs.files), fs.faulty, targets) == Unlink(fs.files, fs.faulty, targets[i + 1..])
      {
        assert targets[i + 1..][0] == SizeTarget(dir, sizes[i]);
        assert targets[i + 1..][1..] == targets[i + 2..];
        match sizes[i]
        case NullSize =>
          return Some(TypeError);
        case SizeData(f) =>
          failed := fs.RemoveIfPresent(FilePath(dir, f));
          if failed {
            return Some(ErrorDeletingFile);
          }
        i := i + 1;
      }
      assert targets[i + 1..] == [];
    } else {
      assert targets[1..] == [];
    }
    return None;
  }

  /** A target that stops the run. */
  predicate Stops(t: Target, faulty: set<string>) {
    t.UnreadableSize? || t.path in faulty
  }

  /** The error a stopping target raises. */
  function StopError(t: Target): Error {
    if t.UnreadableSize? then TypeError else ErrorDeletingFile
  }

  /** The index of the first target that stops the run, `|ts|` when none does. */
  function StopIndex(ts: seq<Target>, faulty: set<string>): (k: nat)
    ensures k <= |ts|
    ensures forall i :: 0 <= i < k ==> !Stops(ts[i], faulty)
    ensures k < |ts| ==> Stops(ts[k], faulty)
    decreases |ts|
  {
    if ts == [] || Stops(ts[0], faulty) then 0 else 1 + StopIndex(ts[1..], faulty)
  }

  /** Reference description of a run: it goes through the targets up to the first
      one that stops it, removes exactly the paths before that one (and nothing
      else), and raises that target's error; with no stopping target it raises
      nothing. */
  lemma {:induction false} UnlinkStopsAtFirstFailure(present: set<string>, faulty: set<string>, targets: seq<Target>)
    ensures var d := Unlink(present, faulty, targets);
      var k := StopIndex(targets, faulty);
      d.error == (if k < |targets| then Some(StopError(targets[k])) else None)
      && forall p :: p in d.remaining <==> p in present && PathTarget(p) !in targets[..k]
    decreases |targets|
  {
    if targets != [] && !Stops(targets[0], faulty) {
      var rest := targets[1..];
      UnlinkStopsAtFirstFailure(present - {targets[0].path}, faulty, rest);
      assert targets[..StopIndex(targets, faulty)] == [targets[0]] + rest[..StopIndex(rest, faulty)];
    }
  }

  /** Only the main file and the size files can disappear; nothing is ever added. */
  lemma OnlyTargetsRemoved(staticPath: Option<string>, overrideDelete: bool, filesToSave: nat,
                           doc: UploadDoc, present: set<string>, faulty: set<string>)
    ensures var d := DeleteAssociatedFilesSpec(staticPath, overrideDelete, filesToSave, doc, present, faulty);
      d.remaining <= present
      && (staticPath.Some? ==> forall p :: p in present - d.remaining ==> PathTarget(p) in Targets(staticPath.value, doc))
      && (staticPath.None? ==> d.remaining == present)
  {
    if staticPath.Some? && (overrideDelete || filesToSave > 0) {
      var ts := Targets(staticPath.value, doc);
      UnlinkStopsAtFirstFailure(present, faulty, ts);
      var k := StopIndex(ts, faulty);
      forall p | PathTarget(p) in ts[..k] ensures PathTarget(p) in ts {
        var i :| 0 <= i < k && ts[..k][i] == PathTarget(p);
        assert ts[i] == PathTarget(p);
      }
    }
  }

  /** When nothing fails, the main file and every size file are gone and all other
      files are still there: a missing file is not an error. */
  lemma CleanRunRemovesAllTargets(staticPath: string, overrideDelete: bool, filesToSave: nat,
                                  doc: UploadDoc, present: set<string>, faulty: set<string>)
    requires overrideDelete || filesToSave > 0
    requires forall t :: t in Targets(staticPath, doc) ==> !Stops(t, faulty)
    ensures var d := DeleteAssociatedFilesSpec(Some(staticPath), overrideDelete, filesToSave, doc, present, faulty);
      d.error == None && forall p :: p in d.remaining <==> p in present && PathTarget(p) !in Targets(staticPath, doc)
  {
    var ts := Targets(staticPath, doc);
    UnlinkStopsAtFirstFailure(present, faulty, ts);
    assert ts[..|ts|] == ts;
  }

  /** A failing target stops the run: no later target is visited, and the error
      is ErrorDeletingFile for a path, TypeError for an unreadable size. */
  lemma FailureStopsRun(staticPath: string, overrideDelete: bool, filesToSave: nat,
                        doc: UploadDoc, present: set<string>, faulty: set<string>, k: nat)
    requires overrideDelete || filesToSave > 0
    requires k < |Targets(staticPath, doc)| && Stops(Targets(staticPath, doc)[k], faulty)
    requires forall i :: 0 <= i < k ==> !Stops(Targets(staticPath, doc)[i], faulty)
    ensures var d := DeleteAssociatedFilesSpec(Some(staticPath), overrideDelete, filesToSave, doc, present, faulty);
      d.error == Some(StopError(Targets(staticPath, doc)[k]))
      && forall p :: p in d.remaining <==> p in present && PathTarget(p) !in Targets(staticPath, doc)[..k]
  {
    var ts := Targets(staticPath, doc);
    UnlinkStopsAtFirstFailure(present, faulty, ts);
  }

  /** Without an upload config, or with neither `overrideDelete` nor files to
      save, nothing is deleted and nothing fails. */
  lemma NothingDeletedWhenGuarded(staticPath: Option<string>, overrideDelete: bool, filesToSave: nat,
                                  doc: UploadDoc, present: set<string>, faulty: set<string>)
    requires staticPath.None? || (!overrideDelete && filesToSave == 0)
    ensures DeleteAssociatedFilesSpec(staticPath, overrideDelete, filesToSave, doc, present, faulty)
      == Deletion(None, present)
  {
  }
}
