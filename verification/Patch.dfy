/**
 The multi-edit patch: every edit is tried on contents held in memory, and only when
 all of them apply are the files written, in the order they were first named. A write
 that fails puts the files already written back.
 */
module Patch {
  import opened Options
  import opened Utf8
  import opened EditOutcome
  import ApplyEdit
  import Matching
  import ShellWords

  type Path = string
  type Name = string
  type Files = map<Path, Text>

  /** Files under their own names, and the name that each path stands for: two spellings may be one file. */
  datatype Disk = Disk(files: map<Name, Text>, name: Path -> Name) {
    predicate Has(path: Path) {
      name(path) in files
    }

    function At(path: Path): Text
      requires Has(path)
    {
      files[name(path)]
    }

    function With(path: Path, content: Text): Disk {
      this.(files := files[name(path) := content])
    }
  }

  datatype Edit = Edit(path: string, oldText: Text, newText: Text)

  /** The file an edit names. */
  function PathOf(edit: Edit): Path {
    TrimSpace(edit.path)
  }

  const MAXIMUM_EDITABLE_BYTES := 2 * 1024 * 1024
  const MAXIMUM_EDITS := 100

  predicate IsEditableText(content: Text) {
    |content| <= MAXIMUM_EDITABLE_BYTES && Valid(content) && 0 !in content
  }

  /** What loading a file for editing demands of it. */
  predicate IsEditable(files: Disk, path: Path) {
    files.Has(path) && IsEditableText(files.At(path))
  }

  // ----- what a patch means

  /** The content of `path` after the edits that name it, in order; nothing once one of them fails. */
  function ContentAfter(files: Disk, edits: seq<Edit>, path: Path): Option<Text> {
    if edits == [] then if IsEditable(files, path) then Some(files.At(path)) else None
    else
      var n := |edits| - 1;
      var before := ContentAfter(files, edits[..n], path);
      if PathOf(edits[n]) != path || before.None? then before
      else
        match ApplyEdit.Apply(before.value, edits[n].oldText, edits[n].newText)
        case Applied(updated) => Some(updated)
        case NotApplied(_) => None
  }

  predicate EditFails(files: Disk, edits: seq<Edit>, i: nat)
    requires i < |edits|
  {
    PathOf(edits[i]) == "" || edits[i].oldText == [] || ContentAfter(files, edits[..i + 1], PathOf(edits[i])).None?
  }

  function PathsOf(edits: seq<Edit>): set<Path> {
    set e <- edits :: PathOf(e)
  }

  /** The paths in the order they are first named. */
  function PathOrder(edits: seq<Edit>): seq<Path> {
    if edits == [] then []
    else
      var n := |edits| - 1;
      var before := PathOrder(edits[..n]);
      if PathOf(edits[n]) in before then before else before + [PathOf(edits[n])]
  }

  /** Each path that is named is in the order once. */
  lemma {:induction false} PathOrderHolds(edits: seq<Edit>)
    ensures var order := PathOrder(edits);
            && (forall p :: p in order <==> p in PathsOf(edits))
            && (forall i, j :: 0 <= i < j < |order| ==> order[i] != order[j])
  {
    hide PathOf;
    if edits != [] {
      var n := |edits| - 1;
      PathOrderHolds(edits[..n]);
      assert edits == edits[..n] + [edits[n]];
      assert PathsOf(edits) == PathsOf(edits[..n]) + {PathOf(edits[n])};
    }
  }

  /** Paths are in the order in which they are first named. */
  lemma {:induction false} PathOrderIsByFirstNaming(edits: seq<Edit>, i: nat, j: nat)
    requires i < j < |PathOrder(edits)|
    ensures IsNamedBefore(edits, PathOrder(edits)[i], PathOrder(edits)[j])
  {
    hide PathOf, IsNamedBefore, PathsOf;
    PathOrderHolds(edits);
    var n := |edits| - 1;
    var before, order := PathOrder(edits[..n]), PathOrder(edits);
    PathOrderHolds(edits[..n]);
    assert i < |before| && order[i] == before[i] && before[i] in before;
    if j < |before| {
      PathOrderIsByFirstNaming(edits[..n], i, j);
    }
    OneEditLater(edits, n, order[i], order[j]);
  }

  /** The first path is named by an edit up to which none names the second. */
  ghost predicate IsNamedBefore(edits: seq<Edit>, first: Path, second: Path) {
    exists k :: 0 <= k < |edits| && PathOf(edits[k]) == first && second !in PathsOf(edits[..k + 1])
  }

  lemma OneEditLater(edits: seq<Edit>, n: nat, first: Path, second: Path)
    requires n + 1 == |edits| && first in PathsOf(edits[..n]) && first != second
    requires second in PathsOf(edits[..n]) ==> IsNamedBefore(edits[..n], first, second)
    ensures IsNamedBefore(edits, first, second)
  {
    hide PathOf;
    var k :| 0 <= k < n && PathOf(edits[..n][k]) == first &&
             (second in PathsOf(edits[..n]) ==> second !in PathsOf(edits[..n][..k + 1]));
    assert edits[..n][..k + 1] == edits[..k + 1] && PathOf(edits[k]) == first;
    assert forall e <- edits[..k + 1] :: e in edits[..n];
  }

  /** Every file the patch names, with the in-order fold of the edits naming it. */
  function Patched(files: Disk, edits: seq<Edit>): Files
    requires forall i :: 0 <= i < |edits| ==> !EditFails(files, edits, i)
  {
    map p | p in PathsOf(edits) && ContentAfter(files, edits, p).Some? :: ContentAfter(files, edits, p).value
  }

  // ----- validating edits in memory

  /** The contents held in memory are the outcome of `edits` on `files`, none of which failed. */
  ghost predicate IsOutcome(original: Files, current: Files, order: seq<Path>, files: Disk, edits: seq<Edit>) {
    && order == PathOrder(edits)
    && original.Keys == current.Keys == PathsOf(edits)
    && (forall p :: p in PathsOf(edits) ==> IsEditable(files, p) && original[p] == files.At(p))
    && (forall p :: p in PathsOf(edits) ==> ContentAfter(files, edits, p) == Some(current[p]))
  }

  class FilePatchState {
    var originalContents: Files
    var currentContents: Files
    var pathOrder: seq<Path>

    constructor ()
      ensures originalContents == map[] && currentContents == map[] && pathOrder == []
    {
      originalContents, currentContents, pathOrder := map[], map[], [];
    }

    ghost predicate Holds(files: Disk, edits: seq<Edit>)
      reads this
    {
      IsOutcome(originalContents, currentContents, pathOrder, files, edits)
    }

    method LoadEditableFile(files: Disk, path: Path) returns (ok: bool)
      modifies this
      ensures path in old(currentContents) ==> ok && unchanged(this)
      ensures path !in old(currentContents) ==> ok == IsEditable(files, path)
      ensures path !in old(currentContents) && !ok ==> unchanged(this)
      ensures path !in old(currentContents) && ok ==>
                && originalContents == old(originalContents)[path := files.At(path)]
                && currentContents == old(currentContents)[path := files.At(path)]
                && pathOrder == old(pathOrder) + [path]
    {
      if path in currentContents {
        return true;
      }
      if !IsEditable(files, path) {
        return false;
      }
      originalContents := originalContents[path := files.At(path)];
      currentContents := currentContents[path := files.At(path)];
      pathOrder := pathOrder + [path];
      return true;
    }

    method ValidatePatchEdit(files: Disk, edits: seq<Edit>, i: nat) returns (ok: bool)
      requires i < |edits| && Holds(files, edits[..i])
      modifies this
      ensures ok <==> !EditFails(files, edits, i)
      ensures ok ==> Holds(files, edits[..i + 1])
    {
      hide ApplyEdit.Apply, IsEditable, IsOutcome, PathOrder, ContentAfter;
      var edit := edits[i];
      var path := PathOf(edit);
      if path == "" || edit.oldText == [] {
        return false;
      }
      ContentOfThisEdit(originalContents, currentContents, pathOrder, files, edits, i);
      var loaded := LoadEditableFile(files, path);
      if !loaded {
        return false;
      }
      var currentContent := currentContents[path];
      match ApplyEdit.Apply(currentContent, edit.oldText, edit.newText)
      case NotApplied(_) => return false;
      case Applied(updated) =>
        OutcomeOfOneMore(old(originalContents), old(currentContents), old(pathOrder), files, edits, i, updated);
        currentContents := currentContents[path := updated];
        assert currentContents == old(currentContents)[path := updated];
        return true;
    }
  }

  /** The edit is tried on what is held for its path, or else on the file. */
  lemma ContentOfThisEdit(original: Files, current: Files, order: seq<Path>, files: Disk, edits: seq<Edit>, i: nat)
    requires i < |edits| && IsOutcome(original, current, order, files, edits[..i])
    ensures var path := PathOf(edits[i]);
            && (path in order <==> path in current) && (path in current <==> path in original)
            && (path in current ==> IsEditable(files, path) && files.Has(path) && original[path] == files.At(path))
            && (IsEditable(files, path) ==> files.Has(path))
            && (!IsEditable(files, path) ==> ContentAfter(files, edits[..i + 1], path) == None)
            && (IsEditable(files, path) ==>
                  ContentAfter(files, edits[..i + 1], path) ==
                  var content := if path in current then current[path] else files.At(path);
                  match ApplyEdit.Apply(content, edits[i].oldText, edits[i].newText) {
                    case Applied(updated) => Some(updated)
                    case NotApplied(_) => None
                  })
  {
    hide ApplyEdit.Apply, PathOrder, Valid, PathsOf;
    OneEditMore(files, edits, i);
    PathOrderHolds(edits[..i]);
  }

  lemma OutcomeOfOneMore(original: Files, current: Files, order: seq<Path>, files: Disk, edits: seq<Edit>, i: nat,
      updated: Text)
    requires i < |edits| && IsOutcome(original, current, order, files, edits[..i])
    requires IsEditable(files, PathOf(edits[i]))
    requires ContentAfter(files, edits[..i + 1], PathOf(edits[i])) == Some(updated)
    ensures PathOf(edits[i]) in order ==> original[PathOf(edits[i]) := files.At(PathOf(edits[i]))] == original
    ensures var path := PathOf(edits[i]);
            var order' := if path in order then order else order + [path];
            IsOutcome(original[path := files.At(path)], current[path := updated], order', files, edits[..i + 1])
  {
    hide ContentAfter, IsEditable, PathOrder, PathsOf, PathOf, IsOutcome, Disk.Has, Disk.At;
    OneEditMore(files, edits, i);
    OnePathMore(edits, i);
    OrderOfOutcome(original, current, order, files, edits[..i]);
    OutcomeGrows(original, current, order, files, edits[..i], edits[..i + 1], PathOf(edits[i]), updated);
    KnownIsOriginal(original, current, order, files, edits[..i], PathOf(edits[i]));
  }

  lemma OrderOfOutcome(original: Files, current: Files, order: seq<Path>, files: Disk, edits: seq<Edit>)
    requires IsOutcome(original, current, order, files, edits)
    ensures order == PathOrder(edits)
  {
  }

  lemma OutcomeGrows(
    original: Files, current: Files, order: seq<Path>, files: Disk, edits: seq<Edit>, edits': seq<Edit>, path: Path,
        updated: Text)
    requires IsOutcome(original, current, order, files, edits) && IsEditable(files, path)
    requires PathsOf(edits') == PathsOf(edits) + {path}
    requires PathOrder(edits') == if path in order then order else order + [path]
    requires ContentAfter(files, edits', path) == Some(updated)
    requires forall p :: p != path ==> ContentAfter(files, edits', p) == ContentAfter(files, edits, p)
    ensures files.Has(path)
    ensures IsOutcome(original[path := files.At(path)], current[path := updated], PathOrder(edits'), files, edits')
  {
    hide ContentAfter, IsEditable, PathOrder, PathsOf;
    EditableIsAFile(files);
  }

  lemma KnownIsOriginal(original: Files, current: Files, order: seq<Path>, files: Disk, edits: seq<Edit>, path: Path)
    requires IsOutcome(original, current, order, files, edits) && files.Has(path)
    ensures path in order ==> original[path := files.At(path)] == original
  {
    hide ContentAfter, IsEditable, PathOrder, PathsOf;
    PathOrderHolds(edits);
  }

  lemma OnePathMore(edits: seq<Edit>, i: nat)
    requires i < |edits|
    ensures var order := PathOrder(edits[..i]);
            PathOrder(edits[..i + 1]) == if PathOf(edits[i]) in order then order else order + [PathOf(edits[i])]
  {
    assert edits[..i + 1][..i] == edits[..i];
  }

  lemma {:induction false} UnnamedIsUntouched(files: Disk, edits: seq<Edit>, p: Path)
    requires p !in PathsOf(edits)
    ensures ContentAfter(files, edits, p) == if IsEditable(files, p) then Some(files.At(p)) else None
  {
    hide ApplyEdit.Apply, IsEditable;
    if edits != [] {
      var n := |edits| - 1;
      assert edits[n] in edits && forall e <- edits[..n] :: e in edits;
      UnnamedIsUntouched(files, edits[..n], p);
    }
  }

  /** How the fold, the order and the named paths grow by one edit. */
  lemma OneEditMore(files: Disk, edits: seq<Edit>, i: nat)
    requires i < |edits|
    ensures edits[..i + 1][..i] == edits[..i]
    ensures PathsOf(edits[..i + 1]) == PathsOf(edits[..i]) + {PathOf(edits[i])}
    ensures forall p ::
              p != PathOf(edits[i]) ==> ContentAfter(files, edits[..i + 1], p) == ContentAfter(files, edits[..i], p)
    ensures PathOf(edits[i]) !in PathsOf(edits[..i]) ==>
              ContentAfter(files, edits[..i], PathOf(edits[i])) ==
              if IsEditable(files, PathOf(edits[i])) then Some(files.At(PathOf(edits[i]))) else None
  {
    hide ApplyEdit.Apply, IsEditable;
    assert edits[..i + 1] == edits[..i] + [edits[i]];
    if PathOf(edits[i]) !in PathsOf(edits[..i]) {
      UnnamedIsUntouched(files, edits[..i], PathOf(edits[i]));
    }
  }

  /** Edits by valid text keep every content the patch holds valid, so only valid text is ever written. */
  lemma {:induction false} PatchedContentIsValid(files: Disk, edits: seq<Edit>, p: Path)
    requires forall e <- edits :: Valid(e.oldText) && Valid(e.newText)
    ensures ContentAfter(files, edits, p).Some? ==> Valid(ContentAfter(files, edits, p).value)
  {
    hide ApplyEdit.Apply, Valid;
    if edits != [] {
      var n := |edits| - 1;
      assert edits[n] in edits && forall e <- edits[..n] :: e in edits;
      PatchedContentIsValid(files, edits[..n], p);
      var before := ContentAfter(files, edits[..n], p);
      if before.Some? && ApplyEdit.Apply(before.value, edits[n].oldText, edits[n].newText).Applied? {
        ApplyEdit.EditKeepsValid(before.value, edits[n].oldText, edits[n].newText);
      }
    }
  }

  lemma LayersAnswerIff(content: Text, edit: Edit)
    requires Valid(content) && edit.oldText != []
    ensures ApplyEdit.Apply(content, edit.oldText, edit.newText).Applied? <==>
            ApplyEdit.SomeLayerAnswers(content, edit.oldText, edit.newText)
  {
    hide Valid, ApplyEdit.Apply, ApplyEdit.AnsweredBy, ApplyEdit.SomeLayerAnswers;
    ApplyEdit.EditReplacesOnePlace(content, edit.oldText, edit.newText);
  }

  /**
   The edit after others by valid text is refused if and only if its path is blank, or its old text is
   empty, or its file is not there, larger than two megabytes, not valid UTF-8 or holds a NUL, or an
   earlier edit of the file was refused, or no layer finds one place for it in what the earlier made of it.
   */
  lemma EditAppliesIff(files: Disk, edits: seq<Edit>, edit: Edit)
    requires forall e <- edits + [edit] :: Valid(e.oldText) && Valid(e.newText)
    ensures !EditFails(files, edits + [edit], |edits|) <==>
            var p := TrimSpace(edit.path);
            && p != "" && edit.oldText != []
            && files.Has(p) && |files.At(p)| <= 2097152 && Valid(files.At(p)) && 0 !in files.At(p)
            && ContentAfter(files, edits, p).Some?
            && ApplyEdit.SomeLayerAnswers(ContentAfter(files, edits, p).value, edit.oldText, edit.newText)
  {
    hide Valid, ApplyEdit.Apply, ApplyEdit.SomeLayerAnswers;
    var all, n, p := edits + [edit], |edits|, PathOf(edit);
    assert all[..n] == edits && all[..n + 1] == all && all[n] == edit;
    assert edit in all && forall e <- edits :: e in all;
    PatchedContentIsValid(files, edits, p);
    ContentIsOfAnEditable(files, edits, p);
    if ContentAfter(files, edits, p).Some? && edit.oldText != [] {
      LayersAnswerIff(ContentAfter(files, edits, p).value, edit);
    }
  }

  lemma {:induction false} ContentIsOfAnEditable(files: Disk, edits: seq<Edit>, p: Path)
    ensures ContentAfter(files, edits, p).Some? ==> IsEditable(files, p)
  {
    hide ApplyEdit.Apply, IsEditable;
    if edits != [] {
      ContentIsOfAnEditable(files, edits[..|edits| - 1], p);
    }
  }

  // ----- writing, and putting back

  /** What a write does: it replaces the file, or it fails, leaving the file alone or leaving other bytes in it. */
  datatype Write = Done | Refused | Torn(left: Text)

  function After(files: Disk, path: Path, content: Text, write: Write): (after: Disk)
    ensures after.name == files.name
  {
    match write
    case Done => files.With(path, content)
    case Refused => files
    case Torn(left) => files.With(path, left)
  }

  /** The outcome of the `k`th write; writes beyond the list succeed. */
  function WriteAt(writes: seq<Write>, k: nat): Write {
    if k < |writes| then writes[k] else Done
  }

  /** How many of the first `n` writes succeed before one fails. */
  function LeadingDone(writes: seq<Write>, n: nat): (r: nat)
    ensures r <= n && (forall k :: 0 <= k < r ==> WriteAt(writes, k).Done?) && (r < n ==> !WriteAt(writes, r).Done?)
  {
    if n == 0 then 0
    else
      var before := LeadingDone(writes, n - 1);
      if before == n - 1 && WriteAt(writes, n - 1).Done? then n else before
  }

  function Written(files: Disk, order: seq<Path>, contents: Files): (after: Disk)
    requires forall p <- order :: p in contents
    ensures after.name == files.name
  {
    if order == [] then files
    else
      var n := |order| - 1;
      Written(files, order[..n], contents).With(order[n], contents[order[n]])
  }

  function RolledBack(files: Disk, order: seq<Path>, original: Files, writes: seq<Write>, from: nat): (after: Disk)
    requires forall p <- order :: p in original
    ensures after.name == files.name
  {
    if order == [] then files
    else
      var n := |order| - 1;
      After(RolledBack(files, order[..n], original, writes, from), order[n], original[order[n]],
          WriteAt(writes, from + n))
  }

  /** The files once every write was tried, or once the first one that failed was rolled back. */
  function FilesAfterPatch(files: Disk, order: seq<Path>, original: Files, current: Files, writes: seq<Write>): Disk
    requires forall p <- order :: p in original && p in current
  {
    var n := LeadingDone(writes, |order|);
    if n == |order| then Written(files, order, current)
    else RolledBack(FilesAfterFailure(files, order, current, writes, n), order[..n], original, writes, n + 1)
  }

  /** The files once the first `n` writes were done and the next was not. */
  function FilesAfterFailure(files: Disk, order: seq<Path>, current: Files, writes: seq<Write>, n: nat): (after: Disk)
    requires n < |order| && forall p <- order :: p in current
    ensures after.name == files.name
  {
    After(Written(files, order[..n], current), order[n], current[order[n]], WriteAt(writes, n))
  }

  /** The shell that writes files, with the outcomes its writes are going to have. */
  class Workspace {
    var files: Disk
    const writes: seq<Write>
    var attempts: nat

    constructor (files: Disk, writes: seq<Write>)
      ensures this.files == files && this.writes == writes && attempts == 0
    {
      this.files, this.writes, attempts := files, writes, 0;
    }

    method RunRequesterFileWrite(path: Path, content: Text) returns (ok: bool)
      modifies this
      ensures ok == WriteAt(writes, old(attempts)).Done?
      ensures files == After(old(files), path, content, WriteAt(writes, old(attempts)))
      ensures attempts == old(attempts) + 1
    {
      var write := WriteAt(writes, attempts);
      ok := write.Done?;
      files := After(files, path, content, write);
      attempts := attempts + 1;
    }

    method RollbackPatchWrites(state: FilePatchState, writtenPaths: seq<Path>)
      requires forall p <- writtenPaths :: p in state.originalContents
      modifies this
      ensures files == RolledBack(old(files), writtenPaths, state.originalContents, writes, old(attempts))
    {
      for i := 0 to |writtenPaths|
        invariant attempts == old(attempts) + i
        invariant files == RolledBack(old(files), writtenPaths[..i], state.originalContents, writes, old(attempts))
      {
        assert writtenPaths[..i + 1][..i] == writtenPaths[..i];
        var _ := RunRequesterFileWrite(writtenPaths[i], state.originalContents[writtenPaths[i]]);
      }
      assert writtenPaths[..|writtenPaths|] == writtenPaths;
    }

    method WritePatchState(state: FilePatchState) returns (ok: bool)
      requires attempts == 0
      requires forall p <- state.pathOrder :: p in state.originalContents && p in state.currentContents
      modifies this
      ensures ok <==> LeadingDone(writes, |state.pathOrder|) == |state.pathOrder|
      ensures files == FilesAfterPatch(old(files), state.pathOrder, state.originalContents, state.currentContents,
          writes)
    {
      var order := state.pathOrder;
      for i := 0 to |order|
        invariant attempts == i && LeadingDone(writes, i) == i
        invariant files == Written(old(files), order[..i], state.currentContents)
      {
        assert order[..i + 1][..i] == order[..i];
        ok := RunRequesterFileWrite(order[i], state.currentContents[order[i]]);
        if !ok {
          assert LeadingDone(writes, |order|) == i;
          RollbackPatchWrites(state, order[..i]);
          return;
        }
      }
      assert order[..|order|] == order;
      ok := true;
    }
  }

  // ----- the whole tool

  datatype Result = Edited(paths: seq<Path>) | Rejected(editIndex: int) | WriteFailed

  /** What the paths of a patch hold before it. */
  function Original(files: Disk, edits: seq<Edit>): Files {
    map p | p in PathsOf(edits) && files.Has(p) :: files.At(p)
  }

  ghost predicate AllApply(files: Disk, edits: seq<Edit>) {
    forall i :: 0 <= i < |edits| ==> !EditFails(files, edits, i)
  }

  /** `patchFileTool`. */
  method PatchFile(workspace: Workspace, edits: seq<Edit>) returns (result: Result)
    requires workspace.attempts == 0
    modifies workspace
    ensures (|edits| == 0 || |edits| > MAXIMUM_EDITS) <==> result == Rejected(-1)
    ensures result.Rejected? ==> workspace.files == old(workspace.files) && workspace.attempts == 0
    ensures result.Rejected? && result.editIndex != -1 ==>
              && 0 <= result.editIndex < |edits|
              && EditFails(old(workspace.files), edits, result.editIndex)
              && forall i :: 0 <= i < result.editIndex ==> !EditFails(old(workspace.files), edits, i)
    ensures !result.Rejected? ==>
              && AllApply(old(workspace.files), edits)
              && workspace.files == DiskAfterPatch(old(workspace.files), edits, workspace.writes)
              && (result.WriteFailed? <==> LeadingDone(workspace.writes, |PathOrder(edits)|) < |PathOrder(edits)|)
    ensures result.Edited? ==>
              && result.paths == PathOrder(edits)
              && workspace.files == PatchedDisk(old(workspace.files), edits)
  {
    hide ApplyEdit.Apply, IsEditable, PathOrder, ContentAfter, EditFails, LeadingDone, PathsOf, Patched, IsOutcome,
        Original, Written;
    if |edits| == 0 || |edits| > MAXIMUM_EDITS {
      return Rejected(-1);
    }
    var files := workspace.files;
    var state := new FilePatchState();
    NothingPatched(files);
    for i := 0 to |edits|
      invariant workspace.files == files && workspace.attempts == 0
      invariant state.Holds(files, edits[..i])
      invariant forall k :: 0 <= k < i ==> !EditFails(files, edits, k)
    {
      var ok := state.ValidatePatchEdit(files, edits, i);
      if !ok {
        return Rejected(i);
      }
    }
    assert edits[..|edits|] == edits;
    OutcomeIsPatched(state.originalContents, state.currentContents, state.pathOrder, files, edits);
    AllApplyIsComplete(files, edits);
    var written := workspace.WritePatchState(state);
    if !written {
      return WriteFailed;
    }
    result := Edited(state.pathOrder);
  }

  lemma NothingPatched(files: Disk)
    ensures forall edits: seq<Edit> :: IsOutcome(map[], map[], [], files, edits[..0])
  {
  }

  /** Every path of a patch whose edits all apply is a file, and has a content after it. */
  lemma AllApplyIsComplete(files: Disk, edits: seq<Edit>)
    requires AllApply(files, edits)
    ensures PathsOf(edits) == Original(files, edits).Keys == Patched(files, edits).Keys
    ensures forall p <- PathOrder(edits) :: p in Patched(files, edits) && p in Original(files, edits) && files.Has(p)
  {
    hide ContentAfter, EditFails, PathOrder;
    assert edits[..|edits|] == edits;
    PathOrderHolds(edits);
    forall p | p in PathsOf(edits) ensures files.Has(p) && ContentAfter(files, edits, p).Some? {
      NamedHasContent(files, edits, p);
    }
  }

  lemma {:induction false} NamedHasContent(files: Disk, edits: seq<Edit>, p: Path)
    requires AllApply(files, edits) && p in PathsOf(edits)
    ensures files.Has(p) && ContentAfter(files, edits, p).Some?
  {
    hide ContentAfter, EditFails, PathOf;
    assert edits != [];
    var n := |edits| - 1;
    var rest := edits[..n];
    assert edits == rest + [edits[n]] && edits[..n + 1] == edits;
    assert PathsOf(edits) == PathsOf(rest) + {PathOf(edits[n])};
    if PathOf(edits[n]) == p {
      assert !EditFails(files, edits, n);
      AppliedHasContent(files, edits, n);
    } else {
      EarlierApply(files, edits);
      OtherContentStays(files, edits, p);
      NamedHasContent(files, rest, p);
    }
  }

  lemma EarlierApply(files: Disk, edits: seq<Edit>)
    requires AllApply(files, edits) && edits != []
    ensures AllApply(files, edits[..|edits| - 1])
  {
    hide ContentAfter, PathOf;
    var rest := edits[..|edits| - 1];
    forall i | 0 <= i < |rest| ensures !EditFails(files, rest, i) {
      assert rest[..i + 1] == edits[..i + 1] && !EditFails(files, edits, i);
    }
  }

  lemma OtherContentStays(files: Disk, edits: seq<Edit>, p: Path)
    requires edits != [] && PathOf(edits[|edits| - 1]) != p
    ensures ContentAfter(files, edits, p) == ContentAfter(files, edits[..|edits| - 1], p)
  {
    hide ApplyEdit.Apply, IsEditable, PathOf;
  }

  lemma AppliedHasContent(files: Disk, edits: seq<Edit>, i: nat)
    requires i < |edits| && !EditFails(files, edits, i)
    ensures files.Has(PathOf(edits[i])) && ContentAfter(files, edits[..i + 1], PathOf(edits[i])).Some?
  {
    hide ContentAfter;
    ContentIsOfAFile(files, edits[..i + 1], PathOf(edits[i]));
  }

  lemma {:induction false} ContentIsOfAFile(files: Disk, edits: seq<Edit>, p: Path)
    requires ContentAfter(files, edits, p).Some?
    ensures files.Has(p)
  {
    hide ApplyEdit.Apply;
    if edits != [] {
      ContentIsOfAFile(files, edits[..|edits| - 1], p);
    }
  }

  /** What the writes of a patch start from, and with paths spelled once each for a file of its own. */
  lemma PatchIsLoaded(files: Disk, edits: seq<Edit>)
    requires AllApply(files, edits)
    ensures IsLoaded(files, PathOrder(edits), Original(files, edits), Patched(files, edits))
    ensures AreSpelledOnce(files.name, PathsOf(edits)) ==> AreDistinct(files, PathOrder(edits))
  {
    hide ContentAfter, AllApply, PathOrder;
    AllApplyIsComplete(files, edits);
    PathOrderHolds(edits);
    var order := PathOrder(edits);
    assert forall i :: 0 <= i < |order| ==> order[i] in PathsOf(edits);
  }

  /** The files as a patch that succeeds leaves them. */
  function PatchedDisk(files: Disk, edits: seq<Edit>): (after: Disk)
    requires AllApply(files, edits)
  {
    AllApplyIsComplete(files, edits);
    Written(files, PathOrder(edits), Patched(files, edits))
  }

  /** The files as a patch leaves them whose writes have these outcomes. */
  function DiskAfterPatch(files: Disk, edits: seq<Edit>, writes: seq<Write>): Disk
    requires AllApply(files, edits)
  {
    AllApplyIsComplete(files, edits);
    FilesAfterPatch(files, PathOrder(edits), Original(files, edits), Patched(files, edits), writes)
  }

  /** What the state holds is what the patch means. */
  lemma OutcomeIsPatched(original: Files, current: Files, order: seq<Path>, files: Disk, edits: seq<Edit>)
    requires IsOutcome(original, current, order, files, edits) && AllApply(files, edits)
    ensures order == PathOrder(edits) && original == Original(files, edits) && current == Patched(files, edits)
  {
    hide ApplyEdit.Apply, ContentAfter, IsEditable;
    EditableIsAFile(files);
  }

  lemma EditableIsAFile(files: Disk)
    ensures forall p :: IsEditable(files, p) ==> files.Has(p)
  {
  }

  // ----- what stands under a name after writes

  /** The `k`th path is the last in the order that stands for the name. */
  predicate IsLastOf(files: Disk, order: seq<Path>, k: nat, name: Name) {
    k < |order| && files.name(order[k]) == name && forall j :: k < j < |order| ==> files.name(order[j]) != name
  }

  predicate Names(files: Disk, order: seq<Path>, name: Name) {
    exists p <- order :: files.name(p) == name
  }

  lemma {:induction false} WrittenElsewhere(files: Disk, order: seq<Path>, contents: Files, name: Name)
    requires (forall p <- order :: p in contents) && !Names(files, order, name)
    ensures SameUnder(files, Written(files, order, contents), name)
  {
    if order != [] {
      assert order[|order| - 1] in order && forall p <- order[..|order| - 1] :: p in order;
      WrittenElsewhere(files, order[..|order| - 1], contents, name);
    }
  }

  lemma {:induction false} WrittenAt(files: Disk, order: seq<Path>, contents: Files, k: nat, name: Name)
    requires (forall p <- order :: p in contents) && IsLastOf(files, order, k, name)
    ensures var after := Written(files, order, contents).files; name in after && after[name] == contents[order[k]]
  {
    var n := |order| - 1;
    if k < n {
      WrittenAt(files, order[..n], contents, k, name);
    }
  }

  lemma {:induction false} LastSpelling(files: Disk, order: seq<Path>, name: Name) returns (k: nat)
    requires Names(files, order, name)
    ensures IsLastOf(files, order, k, name)
  {
    var n := |order| - 1;
    k := n;
    if files.name(order[n]) != name {
      assert order == order[..n] + [order[n]];
      k := LastSpelling(files, order[..n], name);
    }
  }

  ghost predicate AreDistinct(files: Disk, order: seq<Path>) {
    forall i, j :: 0 <= i < j < |order| ==> files.name(order[i]) != files.name(order[j])
  }

  // ----- when a failed patch leaves everything as it was

  /** The failed write left its own file with the content it had. */
  predicate LeftAlone(write: Write, content: Text) {
    write.Refused? || (write.Torn? && write.left == content)
  }

  /** A rollback write restores a file, or fails on one that needed no restoring. */
  predicate Restores(write: Write, original: Text, current: Text) {
    match write
    case Done => true
    case Refused => current == original
    case Torn(left) => left == original
  }

  lemma {:induction false} RolledBackElsewhere(files: Disk, order: seq<Path>, original: Files, writes: seq<Write>,
      from: nat, name: Name)
    requires (forall p <- order :: p in original) && !Names(files, order, name)
    ensures SameUnder(files, RolledBack(files, order, original, writes, from), name)
  {
    if order != [] {
      assert order[|order| - 1] in order && forall p <- order[..|order| - 1] :: p in order;
      RolledBackElsewhere(files, order[..|order| - 1], original, writes, from, name);
    }
  }

  lemma NotAmongEarlier(files: Disk, order: seq<Path>)
    requires order != [] && AreDistinct(files, order)
    ensures !Names(files, order[..|order| - 1], files.name(order[|order| - 1]))
    ensures AreDistinct(files, order[..|order| - 1])
  {
    var rest := order[..|order| - 1];
    forall p | p in rest ensures files.name(p) != files.name(order[|order| - 1]) {
      var i :| 0 <= i < |rest| && rest[i] == p;
      assert order[i] == p;
    }
  }

  lemma {:induction false} RolledBackAt(files: Disk, order: seq<Path>, original: Files, writes: seq<Write>, from: nat,
      j: nat)
    requires (forall p <- order :: p in original && files.Has(p)) && AreDistinct(files, order) && j < |order|
    ensures var p, after := order[j], RolledBack(files, order, original, writes, from);
            after.Has(p) &&
            (after.At(p) == original[p] <==> Restores(WriteAt(writes, from + j), original[p], files.At(p)))
  {
    var n := |order| - 1;
    NotAmongEarlier(files, order);
    if j < n {
      RolledBackAt(files, order[..n], original, writes, from, j);
      assert files.name(order[j]) != files.name(order[n]);
    } else {
      RolledBackElsewhere(files, order[..n], original, writes, from, files.name(order[n]));
    }
  }

  predicate AreDone(writes: seq<Write>, from: nat, to: nat) {
    forall k: nat :: from <= k < to ==> WriteAt(writes, k).Done?
  }

  /** Once all rollback writes are done, every file that was written holds what it held, however often it is spelled. */
  lemma {:induction false} RolledBackDone(files: Disk, order: seq<Path>, original: Files, writes: seq<Write>,
      from: nat, name: Name, content: Text)
    requires (forall p <- order :: p in original) && Names(files, order, name)
    requires forall p <- order :: files.name(p) == name ==> original[p] == content
    requires AreDone(writes, from, from + |order|)
    ensures var after := RolledBack(files, order, original, writes, from).files; name in after && after[name] == content
  {
    var n := |order| - 1;
    if files.name(order[n]) != name {
      assert order == order[..n] + [order[n]];
      RolledBackDone(files, order[..n], original, writes, from, name, content);
    }
  }

  /** The paths of a patch as it was loaded: each a file, and each with the content it has. */
  ghost predicate IsLoaded(files: Disk, order: seq<Path>, original: Files, current: Files) {
    forall p <- order :: p in original && p in current && files.Has(p) && original[p] == files.At(p)
  }

  /**
   When a write fails, and each path stands for a file of its own, the files are exactly what
   they were before the patch if and only if the failed write left its own file alone and every
   rollback write restored its file (or found nothing to restore).
   */
  lemma FailedPatchRestoresIff(files: Disk, order: seq<Path>, original: Files, current: Files, writes: seq<Write>)
    requires AreDistinct(files, order) && IsLoaded(files, order, original, current)
    requires LeadingDone(writes, |order|) < |order|
    ensures var n := LeadingDone(writes, |order|);
            FilesAfterPatch(files, order, original, current, writes) == files <==>
            LeftAlone(WriteAt(writes, n), files.At(order[n])) && AllRestore(order, original, current, writes, n)
  {
    hide LeadingDone, FilesAfterPatch, LeftAlone, Restores, WriteAt;
    var n := LeadingDone(writes, |order|);
    var final := FilesAfterPatch(files, order, original, current, writes);
    FailedPath(files, order, original, current, writes);
    forall j | 0 <= j < n
      ensures final.Has(order[j])
      ensures final.At(order[j]) == files.At(order[j]) <==>
              Restores(WriteAt(writes, n + 1 + j), original[order[j]], current[order[j]])
    {
      WrittenPath(files, order, original, current, writes, j);
    }
    if LeftAlone(WriteAt(writes, n), files.At(order[n])) && AllRestore(order, original, current, writes, n) {
      forall name: Name ensures SameUnder(files, final, name) {
        if Names(files, order[..n + 1], name) {
          var p :| p in order[..n + 1] && files.name(p) == name;
          var j :| 0 <= j <= n && order[j] == p;
          assert final.At(order[j]) == files.At(order[j]);
        } else {
          OtherName(files, order, original, current, writes, name);
        }
      }
      SameEverywhere(files, final);
    }
  }

  /** Every rollback write restores its file. */
  ghost predicate AllRestore(order: seq<Path>, original: Files, current: Files, writes: seq<Write>, n: nat)
    requires n <= |order| && forall p <- order :: p in original && p in current
  {
    forall j :: 0 <= j < n ==> Restores(WriteAt(writes, n + 1 + j), original[order[j]], current[order[j]])
  }

  ghost predicate SameUnder(files: Disk, after: Disk, name: Name) {
    (name in after.files <==> name in files.files) && (name in files.files ==> after.files[name] == files.files[name])
  }

  lemma SameEverywhere(files: Disk, after: Disk)
    requires after.name == files.name && forall name: Name :: SameUnder(files, after, name)
    ensures after == files
  {
    assert forall name: Name :: name in after.files ==> SameUnder(files, after, name);
    assert forall name: Name :: name in files.files ==> SameUnder(files, after, name);
    assert after.files == files.files;
  }

  lemma FailedPath(files: Disk, order: seq<Path>, original: Files, current: Files, writes: seq<Write>)
    requires AreDistinct(files, order) && IsLoaded(files, order, original, current)
    requires LeadingDone(writes, |order|) < |order|
    ensures var n, final := LeadingDone(writes, |order|), FilesAfterPatch(files, order, original, current, writes);
            && final.name == files.name && final.Has(order[n])
            && (final.At(order[n]) == files.At(order[n]) <==> LeftAlone(WriteAt(writes, n), files.At(order[n])))
  {
    hide Written, RolledBack;
    var n := LeadingDone(writes, |order|);
    var name := files.name(order[n]);
    assert order[..n + 1][..n] == order[..n];
    NotAmongEarlier(files, order[..n + 1]);
    WrittenElsewhere(files, order[..n], current, name);
    RolledBackElsewhere(FilesAfterFailure(files, order, current, writes, n), order[..n], original, writes, n + 1, name);
  }

  lemma WrittenPath(files: Disk, order: seq<Path>, original: Files, current: Files, writes: seq<Write>, j: nat)
    requires AreDistinct(files, order) && IsLoaded(files, order, original, current)
    requires j < LeadingDone(writes, |order|) < |order|
    ensures var n, final := LeadingDone(writes, |order|), FilesAfterPatch(files, order, original, current, writes);
            && final.name == files.name && final.Has(order[j])
            && (final.At(order[j]) == files.At(order[j]) <==>
                Restores(WriteAt(writes, n + 1 + j), original[order[j]], current[order[j]]))
  {
    hide Written, RolledBack, Restores;
    var n := LeadingDone(writes, |order|);
    var failed := FilesAfterFailure(files, order, current, writes, n);
    forall k | 0 <= k < n ensures failed.Has(order[k]) && failed.At(order[k]) == current[order[k]] {
      WrittenAt(files, order[..n], current, k, files.name(order[k]));
      assert files.name(order[k]) != files.name(order[n]);
    }
    assert order[..n][j] == order[j];
    RolledBackAt(failed, order[..n], original, writes, n + 1, j);
  }

  lemma OtherName(files: Disk, order: seq<Path>, original: Files, current: Files, writes: seq<Write>, name: Name)
    requires IsLoaded(files, order, original, current) && LeadingDone(writes, |order|) < |order|
    requires !Names(files, order[..LeadingDone(writes, |order|) + 1], name)
    ensures SameUnder(files, FilesAfterPatch(files, order, original, current, writes), name)
  {
    hide Written, RolledBack;
    var n := LeadingDone(writes, |order|);
    assert order[..n + 1] == order[..n] + [order[n]];
    assert order[n] in order[..n + 1];
    WrittenElsewhere(files, order[..n], current, name);
    RolledBackElsewhere(FilesAfterFailure(files, order, current, writes, n), order[..n], original, writes, n + 1, name);
  }

  /**
   However the paths are spelled, once all rollback writes are done the files are what they were if
   and only if the failed write left its file alone, or an earlier path that stands for that file was
   rolled back.
   */
  lemma DoneRollbackRestoresIff(files: Disk, order: seq<Path>, original: Files, current: Files, writes: seq<Write>)
    requires IsLoaded(files, order, original, current) && LeadingDone(writes, |order|) < |order|
    requires var n := LeadingDone(writes, |order|); AreDone(writes, n + 1, n + 1 + n)
    ensures var n := LeadingDone(writes, |order|);
            FilesAfterPatch(files, order, original, current, writes) == files <==>
            LeftAlone(WriteAt(writes, n), files.At(order[n])) || Names(files, order[..n], files.name(order[n]))
  {
    hide LeadingDone, FilesAfterPatch, LeftAlone;
    var n := LeadingDone(writes, |order|);
    var final, last := FilesAfterPatch(files, order, original, current, writes), files.name(order[n]);
    forall name: Name | name != last || Names(files, order[..n], last) ensures SameUnder(files, final, name) {
      DoneRollbackAt(files, order, original, current, writes, name);
    }
    DoneRollbackOfFailed(files, order, original, current, writes);
    if LeftAlone(WriteAt(writes, n), files.At(order[n])) || Names(files, order[..n], last) {
      assert SameUnder(files, final, last);
      SameEverywhere(files, final);
    }
  }

  lemma DoneRollbackAt(files: Disk, order: seq<Path>, original: Files, current: Files, writes: seq<Write>, name: Name)
    requires IsLoaded(files, order, original, current) && LeadingDone(writes, |order|) < |order|
    requires var n := LeadingDone(writes, |order|); AreDone(writes, n + 1, n + 1 + n)
    requires var n := LeadingDone(writes, |order|); name != files.name(order[n]) || Names(files, order[..n], name)
    ensures SameUnder(files, FilesAfterPatch(files, order, original, current, writes), name)
  {
    hide Written, RolledBack;
    var n := LeadingDone(writes, |order|);
    assert forall p <- order[..n] :: p in order;
    if Names(files, order[..n], name) {
      RolledBackDone(FilesAfterFailure(files, order, current, writes, n), order[..n], original, writes, n + 1, name,
          files.files[name]);
    } else {
      assert order[..n + 1] == order[..n] + [order[n]];
      OtherName(files, order, original, current, writes, name);
    }
  }

  lemma DoneRollbackOfFailed(files: Disk, order: seq<Path>, original: Files, current: Files, writes: seq<Write>)
    requires IsLoaded(files, order, original, current) && LeadingDone(writes, |order|) < |order|
    ensures var n, final := LeadingDone(writes, |order|), FilesAfterPatch(files, order, original, current, writes);
            && final.name == files.name
            && (!Names(files, order[..n], files.name(order[n])) ==>
                  && final.Has(order[n])
                  && (final.At(order[n]) == files.At(order[n]) <==> LeftAlone(WriteAt(writes, n), files.At(order[n]))))
  {
    hide Written, RolledBack;
    var n := LeadingDone(writes, |order|);
    var name := files.name(order[n]);
    assert order[n] in order;
    if !Names(files, order[..n], name) {
      WrittenElsewhere(files, order[..n], current, name);
      RolledBackElsewhere(FilesAfterFailure(files, order, current, writes, n), order[..n], original, writes, n + 1,
          name);
    }
  }

  /** A failed write that leaves other bytes in its own file is not put back: only the files before it are. */
  lemma TornWriteIsNotPutBack(files: Disk, path: Path, updated: Text, left: Text)
    requires files.Has(path) && left != files.At(path)
    ensures FilesAfterPatch(files, [path], map[path := files.At(path)], map[path := updated], [Torn(left)]) ==
            files.With(path, left)
  {
    var writes := [Torn(left)];
    assert WriteAt(writes, 0) == Torn(left);
    assert LeadingDone(writes, 1) == 0;
    assert [path][..0] == [];
  }

  // ----- a patch means its edits, file by file

  /** The content of the file after the edits whose paths stand for it, in order. */
  function FoldOf(files: Disk, edits: seq<Edit>, name: Name): Option<Text> {
    if edits == [] then
      if name in files.files && IsEditableText(files.files[name]) then Some(files.files[name]) else None
    else
      var n := |edits| - 1;
      var before := FoldOf(files, edits[..n], name);
      if files.name(PathOf(edits[n])) != name || before.None? then before
      else
        match ApplyEdit.Apply(before.value, edits[n].oldText, edits[n].newText)
        case Applied(updated) => Some(updated)
        case NotApplied(_) => None
  }

  ghost predicate IsNamed(files: Disk, edits: seq<Edit>, name: Name) {
    exists p <- PathsOf(edits) :: files.name(p) == name
  }

  function ContentUnder(files: Disk, name: Name): Option<Text> {
    if name in files.files then Some(files.files[name]) else None
  }

  /** Each file that the patch names holds the fold of its edits, and every other what it held. */
  ghost predicate IsTheFold(files: Disk, edits: seq<Edit>, after: Disk) {
    forall name: Name ::
      if IsNamed(files, edits, name) then FoldOf(files, edits, name) == ContentUnder(after, name)
      else SameUnder(files, after, name)
  }

  ghost predicate AreSpelledOnce(name: Path -> Name, paths: set<Path>) {
    forall p <- paths, q <- paths :: name(p) == name(q) ==> p == q
  }

  lemma {:induction false} ContentIsTheFold(files: Disk, edits: seq<Edit>, p: Path, paths: set<Path>)
    requires PathsOf(edits) <= paths && AreSpelledOnce(files.name, paths) && p in paths
    ensures ContentAfter(files, edits, p) == FoldOf(files, edits, files.name(p))
  {
    hide ApplyEdit.Apply, IsEditableText;
    if edits != [] {
      var n := |edits| - 1;
      assert edits == edits[..n] + [edits[n]];
      assert PathOf(edits[n]) in PathsOf(edits) && PathsOf(edits[..n]) <= PathsOf(edits);
      ContentIsTheFold(files, edits[..n], p, paths);
    }
  }

  lemma SpelledOnceIsTheFold(files: Disk, edits: seq<Edit>)
    requires AllApply(files, edits) && AreSpelledOnce(files.name, PathsOf(edits))
    ensures IsTheFold(files, edits, PatchedDisk(files, edits))
  {
    hide ContentAfter, FoldOf, PathOrder, Written;
    AllApplyIsComplete(files, edits);
    PathOrderHolds(edits);
    var order, contents := PathOrder(edits), Patched(files, edits);
    var after := Written(files, order, contents);
    forall name: Name
      ensures if IsNamed(files, edits, name) then FoldOf(files, edits, name) == ContentUnder(after, name)
              else SameUnder(files, after, name)
    {
      if IsNamed(files, edits, name) {
        var p :| p in PathsOf(edits) && files.name(p) == name;
        assert p in order;
        var k := LastSpelling(files, order, name);
        WrittenAt(files, order, contents, k, name);
        assert order[k] in order;
        ContentIsTheFold(files, edits, order[k], PathsOf(edits));
      } else {
        assert !Names(files, order, name);
        WrittenElsewhere(files, order, contents, name);
      }
    }
  }

  lemma ReplacesOneByte(content: Text, i: nat, old': Byte, new': Text)
    requires i < |content| && content[i] == old' && forall j :: 0 <= j < |content| && j != i ==> content[j] != old'
    ensures ApplyEdit.Apply(content, [old'], new') == Applied(content[..i] + new' + content[i + 1..])
  {
    var m := [old'];
    assert content[i..i + 1] == m;
    forall k: nat | Matching.MatchesAt(content, m, k) ensures k == i {
      assert content[k..k + 1][0] == content[k];
    }
    assert Matching.SoleLeftmost(content, m, i);
    ApplyEdit.SoleLeftmostIffCountIsOne(content, m);
  }

  const TWO_BYTES: Text := [97, 98]

  /** An edit of the first byte by one path and of the second by another. */
  function TwoEdits(p: Path, q: Path): seq<Edit> {
    [Edit(p, [97], [99]), Edit(q, [98], [100])]
  }

  lemma TwoBytesAreEditable()
    ensures IsEditableText(TWO_BYTES)
  {
    ApplyEdit.AsciiIsValid(TWO_BYTES);
  }

  lemma EditsOfTwoBytes()
    ensures ApplyEdit.Apply(TWO_BYTES, [97], [99]) == Applied([99, 98])
    ensures ApplyEdit.Apply(TWO_BYTES, [98], [100]) == Applied([97, 100])
    ensures ApplyEdit.Apply([99, 98], [98], [100]) == Applied([99, 100])
  {
    hide ApplyEdit.Apply;
    ReplacesOneByte(TWO_BYTES, 0, 97, [99]);
    ReplacesOneByte(TWO_BYTES, 1, 98, [100]);
    ReplacesOneByte([99, 98], 1, 98, [100]);
    assert TWO_BYTES[..0] + [99] + TWO_BYTES[1..] == [99, 98];
    assert TWO_BYTES[..1] + [100] + TWO_BYTES[2..] == [97, 100];
    var changed: Text := [99, 98];
    assert changed[..1] + [100] + changed[2..] == [99, 100];
  }

  lemma ContentsOfTwoSpellings(files: Disk, p: Path, q: Path)
    requires p != q && files.name(p) == files.name(q) && TrimSpace(p) == p && TrimSpace(q) == q
    requires files.files == map[files.name(p) := TWO_BYTES]
    ensures var edits := TwoEdits(p, q);
            && ContentAfter(files, edits[..1], p) == Some([99, 98]) && ContentAfter(files, edits, q) == Some([97, 100])
            && FoldOf(files, edits, files.name(p)) == Some([99, 100])
  {
    hide ApplyEdit.Apply, IsEditableText, TrimSpace;
    var edits := TwoEdits(p, q);
    TwoBytesAreEditable();
    EditsOfTwoBytes();
    assert edits[..1][..0] == [];
    assert ContentAfter(files, edits[..1], q) == ContentAfter(files, [], q) == Some(TWO_BYTES);
    assert ContentAfter(files, edits[..1], p) == Some([99, 98]);
    assert FoldOf(files, [], files.name(p)) == Some(TWO_BYTES);
    assert FoldOf(files, edits[..1], files.name(p)) == Some([99, 98]);
  }

  lemma PathsOfTwoEdits(p: Path, q: Path)
    requires p != q && TrimSpace(p) == p && TrimSpace(q) == q
    ensures PathsOf(TwoEdits(p, q)) == {p, q} && PathOrder(TwoEdits(p, q)) == [p] + [q]
  {
    hide TrimSpace;
    var edits := TwoEdits(p, q);
    assert edits[..1][..0] == [] && PathOrder([]) == [];
    assert PathOrder(edits[..1]) == [p];
    assert edits[0] in edits && edits[1] in edits;
  }

  /**
   Two spellings of one file, an edit by each: the second is tried on the file as it was, and written
   over the first.
   */
  lemma TwoSpellingsLoseAnEdit(name: Path -> Name, p: Path, q: Path) returns (files: Disk, edits: seq<Edit>)
    requires p != q && name(p) == name(q) && p != "" && q != "" && TrimSpace(p) == p && TrimSpace(q) == q
    ensures files.name == name && PathsOf(edits) == {p, q} && AllApply(files, edits)
    ensures !IsTheFold(files, edits, PatchedDisk(files, edits))
  {
    files, edits := Disk(map[name(p) := TWO_BYTES], name), TwoEdits(p, q);
    hide TrimSpace, ContentAfter, FoldOf, PathsOf, PathOrder, Written;
    ContentsOfTwoSpellings(files, p, q);
    PathsOfTwoEdits(p, q);
    assert edits[..2] == edits && AllApply(files, edits);
    AllApplyIsComplete(files, edits);
    WrittenAt(files, PathOrder(edits), Patched(files, edits), 1, name(p));
    assert IsNamed(files, edits, name(p)) by { assert p in PathsOf(edits); }
  }

  /**
   Patches by these paths all mean their edits, file by file, if and only if no two of the paths stand
   for one file.
   */
  lemma PatchIsTheFoldIff(name: Path -> Name, paths: set<Path>)
    requires forall p <- paths :: p != "" && TrimSpace(p) == p
    ensures (forall files: Disk, edits: seq<Edit> ::
               files.name == name && PathsOf(edits) <= paths && AllApply(files, edits) ==>
               IsTheFold(files, edits, PatchedDisk(files, edits))) <==>
            AreSpelledOnce(name, paths)
  {
    hide AllApply, IsTheFold, PatchedDisk, TrimSpace, PathsOf;
    if AreSpelledOnce(name, paths) {
      forall files: Disk, edits: seq<Edit> | files.name == name && PathsOf(edits) <= paths && AllApply(files, edits)
        ensures IsTheFold(files, edits, PatchedDisk(files, edits))
      {
        SpelledOnceIsTheFold(files, edits);
      }
    } else {
      var p, q :| p in paths && q in paths && name(p) == name(q) && p != q;
      var files, edits := TwoSpellingsLoseAnEdit(name, p, q);
    }
  }

  /** The name a path stands for in a shell that starts in the home directory. */
  function NameFrom(home: string, path: Path): Name {
    var resolved := ShellWords.Resolved(path, home);
    if "/" <= resolved then resolved else home + "/" + resolved
  }

  /** A path in the home directory has two spellings. */
  lemma HomeHasTwoSpellings(home: string, path: Path)
    requires "/" <= home && !("/" <= path) && !("~" <= path)
    ensures NameFrom(home, "~/" + path) == NameFrom(home, path)
  {
    assert ("~/" + path)[2..] == path && ("~/" + path)[0] == '~';
    assert home[0] == '/' && (home + "/" + path)[0] == '/';
  }
}
