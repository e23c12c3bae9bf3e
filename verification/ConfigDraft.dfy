/** The config page's draft overlay (apps/web/lib/nax-config.ts): edits, creations and deletions kept beside one base
    snapshot, the edits they are sent as, and their reapplication on the latest files. */
module ConfigDraft {

  // `allowed` is the shared protocol's path allowlist, taken as a parameter. A missing value is None.

  import opened Wrappers

  datatype Blob = Blob(sha: string, content: string)

  /** The files a draft was loaded from. */
  type Base = map<string, Blob>

  datatype FileContent = FileContent(path: string, blobSha: string, content: string)

  datatype DraftFile = DraftFile(path: string, baseSha: Option<string>, original: Option<string>, content: Option<string>,
                                 conflict: bool)

  datatype Draft = Draft(baseSha: string, files: map<string, DraftFile>)

  datatype Edit = Put(path: string, content: string, baseSha: Option<string>) | Delete(path: string, baseSha: Option<string>)

  function EmptyDraft(baseSha: string): Draft {
    Draft(baseSha, map[])
  }

  function WithFile(draft: Draft, file: DraftFile): Draft {
    draft.(files := draft.files[file.path := file])
  }

  function WithoutFile(draft: Draft, path: string): Draft {
    draft.(files := draft.files - {path})
  }

  predicate HasCrLf(text: string) {
    exists i :: 0 < i < |text| && text[i-1] == '\r' && text[i] == '\n'
  }

  function ToCrLf(text: string): string {
    if text == "" then "" else (if text[0] == '\n' then "\r\n" else [text[0]]) + ToCrLf(text[1..])
  }

  function MatchLineEndings(original: Option<string>, content: string): string {
    if original.Some? && HasCrLf(original.value) && '\r' !in content then ToCrLf(content) else content
  }

  function EditFile(draft: Draft, loaded: FileContent, input: string): Draft {
    if loaded.path in draft.files && draft.files[loaded.path].original.None? then
      WithFile(draft, draft.files[loaded.path].(content := Some(input)))
    else
      var known := loaded.path in draft.files;
      var original := if known then draft.files[loaded.path].original else Some(loaded.content);
      var baseSha := if known && draft.files[loaded.path].baseSha.Some? then draft.files[loaded.path].baseSha else Some(loaded.blobSha);
      var conflict := known && draft.files[loaded.path].conflict;
      var content := MatchLineEndings(original, input);
      if Some(content) == original && !conflict then WithoutFile(draft, loaded.path)
      else WithFile(draft, DraftFile(loaded.path, baseSha, original, Some(content), conflict))
  }

  /** None when the path is refused. */
  function CreateFile(allowed: string -> bool, draft: Draft, path: string, content: string): Option<Draft> {
    if !allowed(path) then None
    else if path in draft.files && draft.files[path].original.Some? then
      var current := draft.files[path];
      var next := MatchLineEndings(current.original, content);
      if Some(next) == current.original && !current.conflict then Some(WithoutFile(draft, path))
      else Some(WithFile(draft, current.(path := path, content := Some(next))))
    else
      Some(WithFile(draft, DraftFile(path, None, None, Some(content), path in draft.files && draft.files[path].conflict)))
  }

  function DeleteFile(draft: Draft, loaded: FileContent): Draft {
    if loaded.path in draft.files && draft.files[loaded.path].original.None? then WithoutFile(draft, loaded.path)
    else
      var known := loaded.path in draft.files;
      WithFile(draft, DraftFile(
        loaded.path,
        if known && draft.files[loaded.path].baseSha.Some? then draft.files[loaded.path].baseSha else Some(loaded.blobSha),
        if known then draft.files[loaded.path].original else Some(loaded.content),
        None, false))
  }

  function DiscardFile(draft: Draft, path: string): Draft {
    WithoutFile(draft, path)
  }

  function ResolveConflict(draft: Draft, path: string): Draft {
    if path in draft.files then WithFile(draft, draft.files[path].(conflict := false)) else draft
  }

  function DiscardAll(draft: Draft): Draft {
    EmptyDraft(draft.baseSha)
  }

  // ---------------------------------------------------------------------------------------------
  // The plain file map a draft stands for
  // ---------------------------------------------------------------------------------------------

  type Files = map<string, string>

  function Contents(base: Base): Files {
    map p | p in base :: base[p].content
  }

  datatype Op =
    | DoEdit(path: string, input: string)
    | DoCreate(path: string, content: string)
    | DoDelete(path: string)
    | DoDiscard(path: string)
    | DoResolve(path: string)
    | DoDiscardAll

  /** What an operation does to plain files. New text takes the line endings of the file it replaces. */
  function OnFiles(base: Base, files: Files, op: Op): Files {
    match op
    case DoEdit(p, input) => files[p := if p in base then MatchLineEndings(Some(base[p].content), input) else input]
    case DoCreate(p, content) => files[p := if p in base then MatchLineEndings(Some(base[p].content), content) else content]
    case DoDelete(p) => files - {p}
    case DoDiscard(p) => if p in base then files[p := base[p].content] else files - {p}
    case DoResolve(_) => files
    case DoDiscardAll => Contents(base)
  }

  /** A file is loaded from the base, or is the draft's own and needs no load. */
  function Loaded(base: Base, path: string): FileContent {
    if path in base then FileContent(path, base[path].sha, base[path].content) else FileContent(path, "", "")
  }

  /** Editing and deleting need a file that is there; creating needs a path that is absent or deleted in the draft. */
  predicate Sensible(allowed: string -> bool, base: Base, draft: Draft, op: Op) {
    match op
    case DoEdit(p, _) => p in base || p in draft.files
    case DoCreate(p, _) => allowed(p) && (p in base ==> p in draft.files && draft.files[p].content.None?)
    case DoDelete(p) => p in base || p in draft.files
    case _ => true
  }

  function OnDraft(allowed: string -> bool, base: Base, draft: Draft, op: Op): Draft
    requires Sensible(allowed, base, draft, op)
  {
    match op
    case DoEdit(p, input) => EditFile(draft, Loaded(base, p), input)
    case DoCreate(p, content) => CreateFile(allowed, draft, p, content).value
    case DoDelete(p) => DeleteFile(draft, Loaded(base, p))
    case DoDiscard(p) => DiscardFile(draft, p)
    case DoResolve(p) => ResolveConflict(draft, p)
    case DoDiscardAll => DiscardAll(draft)
  }

  /** How one path's entry stands for that path's file: there is an entry exactly where the file differs from the base. */
  ghost predicate EntryStands(base: Base, draft: Draft, files: Files, p: string) {
    if p !in draft.files then
      if p in base then p in files && files[p] == base[p].content else p !in files
    else
      var f := draft.files[p];
      && f.path == p && !f.conflict
      && (f.content.Some? <==> p in files) && (f.content.Some? ==> f.content.value == files[p])
      && (if p in base
          then f.baseSha == Some(base[p].sha) && f.original == Some(base[p].content) && f.content != f.original
          else f.baseSha == None && f.original == None && f.content.Some?)
  }

  ghost predicate StandsFor(base: Base, draft: Draft, files: Files) {
    forall p :: EntryStands(base, draft, files, p)
  }

  lemma OpStands(allowed: string -> bool, base: Base, draft: Draft, files: Files, op: Op)
    requires StandsFor(base, draft, files) && Sensible(allowed, base, draft, op)
    ensures StandsFor(base, OnDraft(allowed, base, draft, op), OnFiles(base, files, op))
  {
    var draft', files' := OnDraft(allowed, base, draft, op), OnFiles(base, files, op);
    forall p ensures EntryStands(base, draft', files', p) {
      assert EntryStands(base, draft, files, p);
      match op
      case DoEdit(q, _) => assert EntryStands(base, draft, files, q);
      case DoCreate(q, _) => assert EntryStands(base, draft, files, q);
      case DoDelete(q) => assert EntryStands(base, draft, files, q);
      case DoResolve(q) => assert EntryStands(base, draft, files, q);
      case _ =>
    }
  }

  ghost predicate AllSensible(allowed: string -> bool, base: Base, draft: Draft, ops: seq<Op>)
    decreases |ops|
  {
    ops == [] || (Sensible(allowed, base, draft, ops[0]) && AllSensible(allowed, base, OnDraft(allowed, base, draft, ops[0]), ops[1..]))
  }

  ghost function Drafted(allowed: string -> bool, base: Base, draft: Draft, ops: seq<Op>): Draft
    requires AllSensible(allowed, base, draft, ops)
    decreases |ops|
  {
    if ops == [] then draft else Drafted(allowed, base, OnDraft(allowed, base, draft, ops[0]), ops[1..])
  }

  ghost function Described(base: Base, files: Files, ops: seq<Op>): Files
    decreases |ops|
  {
    if ops == [] then files else Described(base, OnFiles(base, files, ops[0]), ops[1..])
  }

  lemma {:induction false} OpsStand(allowed: string -> bool, base: Base, draft: Draft, files: Files, ops: seq<Op>)
    requires StandsFor(base, draft, files) && AllSensible(allowed, base, draft, ops)
    ensures StandsFor(base, Drafted(allowed, base, draft, ops), Described(base, files, ops))
    decreases |ops|
  {
    if ops != [] {
      OpStands(allowed, base, draft, files, ops[0]);
      hide StandsFor;
      OpsStand(allowed, base, OnDraft(allowed, base, draft, ops[0]), OnFiles(base, files, ops[0]), ops[1..]);
    }
  }

  /** A file in conflict stays in the draft, flagged and at its base version, until it is resolved, deleted or discarded. */
  predicate IsHeld(draft: Draft, p: string, baseSha: Option<string>) {
    p in draft.files && draft.files[p].conflict && draft.files[p].baseSha == baseSha
  }

  lemma ConflictIsHeld(allowed: string -> bool, base: Base, draft: Draft, op: Op, p: string, baseSha: Option<string>)
    requires Sensible(allowed, base, draft, op) && IsHeld(draft, p, baseSha) && (baseSha.Some? <==> draft.files[p].original.Some?)
    requires forall q :: q in draft.files ==> draft.files[q].path == q
    ensures var next := OnDraft(allowed, base, draft, op);
      && (IsHeld(next, p, baseSha) <==> op != DoDelete(p) && op != DoDiscard(p) && op != DoResolve(p) && op != DoDiscardAll)
      && (op == DoResolve(p) ==> next.files == draft.files[p := draft.files[p].(conflict := false)])
      && (op == DoDelete(p) && baseSha.Some? ==> p in next.files && next.files[p].content.None? && next.files[p].baseSha == baseSha)
      && ((op == DoDelete(p) && baseSha.None?) || op == DoDiscard(p) || op == DoDiscardAll ==> p !in next.files)
      // Whatever is done, the snapshot the draft was loaded from stays.
      && next.baseSha == draft.baseSha
  {
    hide MatchLineEndings;
  }

  /** A file is created exactly where the protocol allows one; no other path is touched, and nothing is flagged that was not. */
  lemma CreatedExactlyWhen(allowed: string -> bool, draft: Draft, path: string, content: string)
    requires forall q :: q in draft.files ==> draft.files[q].path == q
    ensures CreateFile(allowed, draft, path, content).Some? <==> allowed(path)
    ensures allowed(path) ==>
      var next := CreateFile(allowed, draft, path, content).value;
      && next.baseSha == draft.baseSha
      && (forall q :: q != path ==> (q in next.files <==> q in draft.files) && (q in draft.files ==> next.files[q] == draft.files[q]))
      && (path in next.files && next.files[path].conflict <==> path in draft.files && draft.files[path].conflict)
  {
    hide MatchLineEndings;
  }

  // ---------------------------------------------------------------------------------------------
  // The edits a draft is sent as
  // ---------------------------------------------------------------------------------------------

  ghost predicate Lists(order: seq<string>, paths: set<string>) {
    && (forall p :: p in paths <==> p in order)
    && (forall i, j :: 0 <= i < j < |order| ==> order[i] != order[j])
  }

  function EditOf(file: DraftFile): Edit {
    if file.content.None? then Delete(file.path, file.baseSha) else Put(file.path, file.content.value, file.baseSha)
  }

  /** The draft's edits in the given order of its paths (the source sorts them by path). */
  function DraftEdits(draft: Draft, order: seq<string>): (r: seq<Edit>)
    requires forall p :: p in order ==> p in draft.files
    ensures |r| == |order| && forall i :: 0 <= i < |r| ==> r[i] == EditOf(draft.files[order[i]])
  {
    seq(|order|, i requires 0 <= i < |order| => EditOf(draft.files[order[i]]))
  }

  function ApplyEdit(files: Files, edit: Edit): Files {
    match edit
    case Put(p, content, _) => files[p := content]
    case Delete(p, _) => files - {p}
  }

  function ApplyAll(files: Files, edits: seq<Edit>): Files {
    if edits == [] then files else ApplyEdit(ApplyAll(files, edits[..|edits|-1]), edits[|edits|-1])
  }

  /** With one edit a path, each path ends as its edit says, or as it was. */
  lemma {:induction false} ApplyAllAt(files: Files, edits: seq<Edit>, p: string)
    requires forall i, j :: 0 <= i < j < |edits| ==> edits[i].path != edits[j].path
    ensures var after := ApplyAll(files, edits);
      if i :| 0 <= i < |edits| && edits[i].path == p then
        (if edits[i].Put? then p in after && after[p] == edits[i].content else p !in after)
      else (p in after <==> p in files) && (p in files ==> after[p] == files[p])
    decreases |edits|
  {
    if edits != [] {
      var n := |edits| - 1;
      ApplyAllAt(files, edits[..n], p);
      if i :| 0 <= i < n && edits[i].path == p {
        assert edits[..n][i].path == p;
        assert edits[n].path != p;
      }
    }
  }

  /**
   After any sensible operations on one base, the edits applied to the base give the files the operations describe,
   and an edit carries no base version exactly when its path is not in the base.
   */
  lemma EditsGiveTheFiles(allowed: string -> bool, base: Base, baseSha: string, ops: seq<Op>, order: seq<string>)
    requires AllSensible(allowed, base, EmptyDraft(baseSha), ops)
    requires Lists(order, Drafted(allowed, base, EmptyDraft(baseSha), ops).files.Keys)
    ensures var draft := Drafted(allowed, base, EmptyDraft(baseSha), ops);
      var edits := DraftEdits(draft, order);
      && ApplyAll(Contents(base), edits) == Described(base, Contents(base), ops)
      && forall i :: 0 <= i < |edits| ==> (edits[i].baseSha.None? <==> edits[i].path !in base)
  {
    assert StandsFor(base, EmptyDraft(baseSha), Contents(base));
    OpsStand(allowed, base, EmptyDraft(baseSha), Contents(base), ops);
    StandingEdits(base, Drafted(allowed, base, EmptyDraft(baseSha), ops), Described(base, Contents(base), ops), order);
  }

  lemma StandingEdits(base: Base, draft: Draft, files: Files, order: seq<string>)
    requires StandsFor(base, draft, files) && Lists(order, draft.files.Keys)
    ensures var edits := DraftEdits(draft, order);
      && ApplyAll(Contents(base), edits) == files
      && forall i :: 0 <= i < |edits| ==>
           edits[i].path == order[i] && (edits[i].baseSha.None? <==> edits[i].path !in base)
  {
    var edits := DraftEdits(draft, order);
    var after := ApplyAll(Contents(base), edits);
    forall i | 0 <= i < |edits| ensures edits[i].path == order[i] && (edits[i].baseSha.None? <==> edits[i].path !in base) {
      assert EntryStands(base, draft, files, order[i]);
    }
    forall p ensures (p in after <==> p in files) && (p in files ==> after[p] == files[p]) {
      ApplyAllAt(Contents(base), edits, p);
      assert EntryStands(base, draft, files, p);
      if p in draft.files {
        var i :| 0 <= i < |order| && order[i] == p;
        assert edits[i].path == p;
      }
    }
  }

  // ---------------------------------------------------------------------------------------------
  // Reapplying stored edits
  // ---------------------------------------------------------------------------------------------

  function LoadedText(contents: Files, path: string): string {
    if path in contents then contents[path] else ""
  }

  function ReapplyOne(allowed: string -> bool, edit: Edit, latest: Base, contents: Files): Option<DraftFile> {
    if !allowed(edit.path) then None
    else if edit.Delete? then
      if edit.path !in latest then None
      else Some(DraftFile(edit.path, Some(latest[edit.path].sha), Some(LoadedText(contents, edit.path)), None,
                          Some(latest[edit.path].sha) != edit.baseSha))
    else if edit.path !in latest then
      Some(DraftFile(edit.path, None, None, Some(edit.content), edit.baseSha != None))
    else
      var original := LoadedText(contents, edit.path);
      var conflict := Some(latest[edit.path].sha) != edit.baseSha;
      if !conflict && edit.content == original then None
      else Some(DraftFile(edit.path, Some(latest[edit.path].sha), Some(original), Some(edit.content), conflict))
  }

  function ReapplyFiles(allowed: string -> bool, stored: seq<Edit>, latest: Base, contents: Files): map<string, DraftFile> {
    if stored == [] then map[] else
      var before := ReapplyFiles(allowed, stored[..|stored|-1], latest, contents);
      var file := ReapplyOne(allowed, stored[|stored|-1], latest, contents);
      if file.None? then before else before[file.value.path := file.value]
  }

  function ReapplyEdits(allowed: string -> bool, stored: seq<Edit>, latestSha: string, latest: Base, contents: Files): Draft {
    Draft(latestSha, ReapplyFiles(allowed, stored, latest, contents))
  }

  /** The version of a path in a listing. */
  function ShaIn(files: Base, path: string): Option<string> {
    if path in files then Some(files[path].sha) else None
  }

  /**
   A reapplied edit keeps its text untouched and is flagged exactly when the file is not at the version it was made
   against; what is dropped is refused, already gone, or already so.
   */
  lemma FlaggedExactlyWhenMoved(allowed: string -> bool, edit: Edit, latest: Base, contents: Files)
    ensures var file := ReapplyOne(allowed, edit, latest, contents);
      && (file.Some? ==>
            file.value.path == edit.path && file.value.content == (if edit.Put? then Some(edit.content) else None)
            && file.value.baseSha == ShaIn(latest, edit.path)
            && (file.value.conflict <==> ShaIn(latest, edit.path) != edit.baseSha))
      && (file.None? <==>
            || !allowed(edit.path)
            || (edit.Delete? && edit.path !in latest)
            || (edit.Put? && edit.path in latest && ShaIn(latest, edit.path) == edit.baseSha
                && edit.content == LoadedText(contents, edit.path)))
  {
  }

  lemma {:induction false} ReapplyFilesElsewhere(allowed: string -> bool, stored: seq<Edit>, latest: Base, contents: Files, p: string)
    requires forall i :: 0 <= i < |stored| ==> stored[i].path != p
    ensures p !in ReapplyFiles(allowed, stored, latest, contents)
    decreases |stored|
  {
    if stored != [] {
      var n := |stored| - 1;
      ReapplyFilesElsewhere(allowed, stored[..n], latest, contents, p);
      FlaggedExactlyWhenMoved(allowed, stored[n], latest, contents);
      hide ReapplyOne;
    }
  }

  lemma {:induction false} ReapplyFilesAt(allowed: string -> bool, stored: seq<Edit>, latest: Base, contents: Files, i: nat)
    requires forall i, j :: 0 <= i < j < |stored| ==> stored[i].path != stored[j].path
    requires i < |stored|
    ensures var files, p := ReapplyFiles(allowed, stored, latest, contents), stored[i].path;
      var file := ReapplyOne(allowed, stored[i], latest, contents);
      (p in files <==> file.Some?) && (file.Some? ==> files[p] == file.value)
    decreases |stored|
  {
    var n := |stored| - 1;
    FlaggedExactlyWhenMoved(allowed, stored[n], latest, contents);
    hide ReapplyOne;
    if i < n {
      ReapplyFilesAt(allowed, stored[..n], latest, contents, i);
      assert stored[i].path != stored[n].path;
    } else {
      ReapplyFilesElsewhere(allowed, stored[..n], latest, contents, stored[n].path);
    }
  }

  /** The files whose base text is needed were loaded with it. */
  ghost predicate Reloaded(base: Base, draft: Draft, contents: Files) {
    forall p :: p in draft.files && p in base ==> LoadedText(contents, p) == base[p].content
  }

  /**
   A conflict-free draft's edits, reapplied on the base it was made on, give the same draft back exactly when its
   paths are all allowed and its files' base texts were loaded.
   */
  lemma ReapplyIsIdentityExactlyWhen(allowed: string -> bool, base: Base, draft: Draft, files: Files, order: seq<string>,
                                     contents: Files)
    requires StandsFor(base, draft, files) && Lists(order, draft.files.Keys)
    ensures ReapplyEdits(allowed, DraftEdits(draft, order), draft.baseSha, base, contents) == draft <==>
      (forall p :: p in draft.files ==> allowed(p)) && Reloaded(base, draft, contents)
  {
    var edits := DraftEdits(draft, order);
    var again := ReapplyFiles(allowed, edits, base, contents);
    forall i | 0 <= i < |edits| ensures edits[i].path == order[i] { assert EntryStands(base, draft, files, order[i]); }
    hide ReapplyFiles;
    forall p | p !in draft.files ensures p !in again { ReapplyFilesElsewhere(allowed, edits, base, contents, p); }
    forall p | p in draft.files
      ensures (p in again && again[p] == draft.files[p]) <==> allowed(p) && (p in base ==> LoadedText(contents, p) == base[p].content)
    {
      ReappliedAt(allowed, base, draft, files, order, contents, p);
    }
    hide StandsFor, Lists, LoadedText;
    SameFiles(again, draft.files);
  }

  lemma SameFiles(x: map<string, DraftFile>, y: map<string, DraftFile>)
    requires forall p :: p !in y ==> p !in x
    ensures x == y <==> forall p :: p in y ==> p in x && x[p] == y[p]
  {
  }

  /** One file of the draft: its edit gives it back exactly when its path is allowed and its base text was loaded. */
  lemma ReappliedAt(allowed: string -> bool, base: Base, draft: Draft, files: Files, order: seq<string>, contents: Files, p: string)
    requires StandsFor(base, draft, files) && Lists(order, draft.files.Keys) && p in draft.files
    ensures var again := ReapplyFiles(allowed, DraftEdits(draft, order), base, contents);
      (p in again && again[p] == draft.files[p]) <==> allowed(p) && (p in base ==> LoadedText(contents, p) == base[p].content)
  {
    var edits := DraftEdits(draft, order);
    forall i | 0 <= i < |edits| ensures edits[i].path == order[i] { assert EntryStands(base, draft, files, order[i]); }
    var i: nat :| i < |order| && order[i] == p;
    ReapplyFilesAt(allowed, edits, base, contents, i);
    assert EntryStands(base, draft, files, p);
  }

  /** The same for any draft that operations on one base can make. */
  lemma DraftedReapplies(allowed: string -> bool, base: Base, baseSha: string, ops: seq<Op>, order: seq<string>, contents: Files)
    requires AllSensible(allowed, base, EmptyDraft(baseSha), ops)
    requires Lists(order, Drafted(allowed, base, EmptyDraft(baseSha), ops).files.Keys)
    ensures var draft := Drafted(allowed, base, EmptyDraft(baseSha), ops);
      ReapplyEdits(allowed, DraftEdits(draft, order), draft.baseSha, base, contents) == draft <==>
        (forall p :: p in draft.files ==> allowed(p)) && Reloaded(base, draft, contents)
  {
    assert StandsFor(base, EmptyDraft(baseSha), Contents(base));
    OpsStand(allowed, base, EmptyDraft(baseSha), Contents(base), ops);
    hide StandsFor;
    ReapplyIsIdentityExactlyWhen(allowed, base, Drafted(allowed, base, EmptyDraft(baseSha), ops),
                                 Described(base, Contents(base), ops), order, contents);
  }

  // ---------------------------------------------------------------------------------------------
  // A file that was only opened
  // ---------------------------------------------------------------------------------------------

  /** What a textarea reports for a text: every line ending as a line feed. */
  function FromTextarea(text: string): string
    decreases |text|
  {
    if text == "" then ""
    else if text[0] == '\r' then "\n" + FromTextarea(if |text| > 1 && text[1] == '\n' then text[2..] else text[1..])
    else [text[0]] + FromTextarea(text[1..])
  }

  /** Every line of the text ends in a carriage return and a line feed, and neither stands alone. */
  predicate OnlyCrLf(text: string)
    decreases |text|
  {
    if text == "" then true
    else if text[0] == '\r' then |text| > 1 && text[1] == '\n' && OnlyCrLf(text[2..])
    else text[0] != '\n' && OnlyCrLf(text[1..])
  }

  lemma {:induction false} CrLfComesBack(text: string)
    ensures ToCrLf(FromTextarea(text)) == text <==> OnlyCrLf(text)
    ensures '\r' !in FromTextarea(text)
    ensures FromTextarea(text) == text <==> '\r' !in text
    decreases |text|
  {
    if text != "" {
      var pair := text[0] == '\r' && |text| > 1 && text[1] == '\n';
      var rest := if pair then text[2..] else text[1..];
      CrLfComesBack(rest);
      assert text == (if pair then "\r\n" else [text[0]]) + rest;
      var reported := FromTextarea(text);
      assert reported[1..] == FromTextarea(rest);
      assert ToCrLf(reported) == (if reported[0] == '\n' then "\r\n" else [reported[0]]) + ToCrLf(FromTextarea(rest));
      if text[0] == '\n' || (text[0] == '\r' && !pair) {
        assert ToCrLf(reported)[..2] == "\r\n";
      }
      if pair { assert ToCrLf(reported)[2..] == ToCrLf(FromTextarea(rest)) && text[2..] == rest; }
    }
  }

  lemma {:induction false} OnlyCrLfHasOne(text: string)
    requires OnlyCrLf(text) && '\r' in text
    ensures HasCrLf(text)
    decreases |text|
  {
    if text[0] == '\r' {
      assert text[0] == '\r' && text[1] == '\n';
    } else {
      OnlyCrLfHasOne(text[1..]);
      var i :| 0 < i < |text[1..]| && text[1..][i-1] == '\r' && text[1..][i] == '\n';
      assert text[i] == '\r' && text[i+1] == '\n';
    }
  }

  /**
   What is typed into a file with pairs takes pairs throughout, and reads back as it was typed; into any other file it
   goes as it is.
   */
  lemma {:induction false} TypedTextTakesEndings(original: Option<string>, input: string)
    ensures var text := MatchLineEndings(original, input);
      if original.Some? && HasCrLf(original.value) && '\r' !in input then OnlyCrLf(text) && FromTextarea(text) == input
      else text == input
  {
    if '\r' !in input { PairsReadBack(input); }
    hide HasCrLf;
  }

  lemma {:induction false} PairsReadBack(input: string)
    requires '\r' !in input
    ensures OnlyCrLf(ToCrLf(input)) && FromTextarea(ToCrLf(input)) == input
    decreases |input|
  {
    if input != "" {
      PairsReadBack(input[1..]);
      var text, rest := ToCrLf(input), ToCrLf(input[1..]);
      if input[0] == '\n' { assert text[2..] == rest; } else { assert text[1..] == rest; }
      assert input == [input[0]] + input[1..];
    }
  }

  /**
   Restoring the line endings keeps an opened but unedited file unchanged exactly when its endings are uniform: no
   carriage return at all, or only pairs. A file that mixes them turns up as modified.
   */
  lemma UneditedStaysExactlyWhenUniform(draft: Draft, loaded: FileContent)
    requires loaded.path !in draft.files
    ensures EditFile(draft, loaded, FromTextarea(loaded.content)) == draft <==>
      '\r' !in loaded.content || OnlyCrLf(loaded.content)
  {
    CrLfComesBack(loaded.content);
    if OnlyCrLf(loaded.content) && '\r' in loaded.content { OnlyCrLfHasOne(loaded.content); }
    assert WithoutFile(draft, loaded.path).files == draft.files;
  }

  lemma MixedEndingsTurnUpModified()
    ensures var loaded := FileContent("p", "sha", "a\r\nb\n");
      EditFile(EmptyDraft("base"), loaded, FromTextarea(loaded.content)) != EmptyDraft("base")
  {
    var content := "a\r\nb\n";
    assert content[1..] == "\r\nb\n" && content[1..][2..] == "b\n" && content[1..][2..][1..] == "\n";
    UneditedStaysExactlyWhenUniform(EmptyDraft("base"), FileContent("p", "sha", content));
  }
}
