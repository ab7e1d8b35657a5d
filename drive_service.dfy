/**
 * `services/drive_service.py`: search, create and update of catalog files in
 * one Google Drive folder. The drive is a sequence of files in the order the
 * API lists them; `available` says whether `_authenticate` left a service
 * object. Each remote call can fail (an `HttpError`): its outcome is a
 * parameter, and so is the id the API hands out for a new file.
 */
module Drive {
  import opened Wrappers
  import opened FileService

  datatype DriveFile = DriveFile(id: string, name: string, parent: string, trashed: bool, content: Bytes)

  /** The dictionary `upload_or_update` returns. */
  datatype DriveResult = DriveResult(success: bool, action: string, fileId: Option<string>, fileName: string)

  /** What the query `name='…' and '<folder>' in parents and trashed=false`
      selects. */
  predicate Visible(f: DriveFile, folder: string, name: string) {
    f.name == name && f.parent == folder && !f.trashed
  }

  /** `files[0]` of the query's result: the first visible file with that
      name in the folder. */
  function Lookup(files: seq<DriveFile>, folder: string, name: string): (r: Option<DriveFile>)
    ensures r.Some? ==> Visible(r.value, folder, name) &&
                        exists i :: 0 <= i < |files| && files[i] == r.value &&
                          forall j :: 0 <= j < i ==> !Visible(files[j], folder, name)
    ensures r.None? ==> forall j :: 0 <= j < |files| ==> !Visible(files[j], folder, name)
  {
    if files == [] then None
    else if Visible(files[0], folder, name) then Some(files[0])
    else
      var r := Lookup(files[1..], folder, name);
      assert r.Some? ==> exists i :: 0 <= i < |files| - 1 && files[1..][i] == r.value &&
                          forall j :: 0 <= j < i ==> !Visible(files[1..][j], folder, name);
      assert r.Some? ==> exists i :: 1 <= i < |files| && files[i] == r.value &&
                          forall j :: 0 <= j < i ==> !Visible(files[j], folder, name);
      r
  }

  /** The drive after `files().update(fileId=id, media_body=…)`: the content
      of the file with that id is replaced, nothing else changes. */
  function SetContent(files: seq<DriveFile>, id: string, content: Bytes): (r: seq<DriveFile>)
    ensures |r| == |files|
    ensures forall i :: 0 <= i < |files| ==>
              r[i] == if files[i].id == id then files[i].(content := content) else files[i]
  {
    seq(|files|, i requires 0 <= i < |files| =>
      if files[i].id == id then files[i].(content := content) else files[i])
  }

  /** Some file of the drive has this id. */
  predicate HasId(files: seq<DriveFile>, id: string) {
    exists i :: 0 <= i < |files| && files[i].id == id
  }

  /** How many files the query for `name` in `folder` selects. */
  function VisibleCount(files: seq<DriveFile>, folder: string, name: string): (n: nat)
    ensures n <= |files|
    ensures n == 0 <==> forall j :: 0 <= j < |files| ==> !Visible(files[j], folder, name)
  {
    if files == [] then 0
    else (if Visible(files[0], folder, name) then 1 else 0) + VisibleCount(files[1..], folder, name)
  }

  /** What `upload_or_update` returns and leaves on the drive: the file the
      search finds is updated, otherwise a new one is created. */
  function UploadOrUpdateOutcome(files: seq<DriveFile>, available: bool, folder: string, content: Bytes,
                                 name: string, listed: bool, written: bool, newId: string)
    : (out: (DriveResult, seq<DriveFile>))
    ensures out.0.fileName == name
    ensures out.0.success ==> out.0.fileId.Some? && available && written
    ensures available && written && newId != "" ==> out.0.success
  {
    var existing := if available && listed then Lookup(files, folder, name) else None;
    if existing.Some? then
      var ok := available && written;
      (DriveResult(ok, "updated", Some(existing.value.id), name),
       if ok then SetContent(files, existing.value.id, content) else files)
    else if available && written then
      (DriveResult(newId != "", "created", Some(newId), name), files + [DriveFile(newId, name, folder, false, content)])
    else
      (DriveResult(false, "created", None, name), files)
  }

  /** A successful `upload_or_update` leaves a file of that name that the
      search finds, and a file the search found before is still found. */
  lemma UploadOrUpdateKeepsFound(files: seq<DriveFile>, available: bool, folder: string, content: Bytes,
                                 name: string, listed: bool, written: bool, newId: string, other: string)
    ensures var out := UploadOrUpdateOutcome(files, available, folder, content, name, listed, written, newId);
            (out.0.success ==> Lookup(out.1, folder, name).Some?) &&
            (Lookup(files, folder, other).Some? ==> Lookup(out.1, folder, other).Some?)
  {
    var out := UploadOrUpdateOutcome(files, available, folder, content, name, listed, written, newId);
    var existing := if available && listed then Lookup(files, folder, name) else None;
    if existing.Some? {
      if available && written {
        SetContentKeepsVisible(files, existing.value.id, content, folder, name);
        SetContentKeepsVisible(files, existing.value.id, content, folder, other);
      }
    } else if available && written {
      var f := DriveFile(newId, name, folder, false, content);
      LookupAfterCreate(files, folder, f);
      if Lookup(files, folder, other).Some? {
        var i :| 0 <= i < |files| && files[i] == Lookup(files, folder, other).value;
        assert out.1[i] == files[i];
      }
    }
  }

  class DriveService {
    /** `self.service` is set. */
    var available: bool
    /** `GOOGLE_DRIVE_FOLDER_ID`. */
    const folderId: string
    /** The files of the drive, in listing order. */
    var files: seq<DriveFile>

    /** `__init__`: `authenticated` is the outcome of `_authenticate`. */
    constructor(authenticated: bool, folderId: string, files: seq<DriveFile>)
      ensures available == authenticated && this.folderId == folderId && this.files == files
    {
      available := authenticated;
      this.folderId := folderId;
      this.files := files;
    }

    /** `search_file`. */
    method SearchFile(name: string, listed: bool) returns (found: Option<DriveFile>)
      ensures available && listed ==> found == Lookup(files, folderId, name)
      ensures !(available && listed) ==> found == None
    {
      if !available {
        return None;
      }
      if !listed {
        return None;
      }
      found := Lookup(files, folderId, name);
    }

    /** `upload_file`: creates one file in the configured folder and returns
        the id the API assigned. */
    method UploadFile(content: Bytes, name: string, created: bool, newId: string) returns (id: Option<string>)
      modifies this
      ensures available == old(available)
      ensures available && created ==>
                id == Some(newId) && files == old(files) + [DriveFile(newId, name, folderId, false, content)]
      ensures !(available && created) ==> id == None && files == old(files)
    {
      if !available {
        return None;
      }
      if !created {
        return None;
      }
      files := files + [DriveFile(newId, name, folderId, false, content)];
      id := Some(newId);
    }

    /** `update_file`: replaces the content of an existing file; an unknown
        id is an error of the API. */
    method UpdateFile(id: string, content: Bytes, name: string, updated: bool) returns (ok: bool)
      modifies this
      ensures available == old(available)
      ensures ok <==> available && updated && HasId(old(files), id)
      ensures files == if ok then SetContent(old(files), id, content) else old(files)
    {
      if !available {
        return false;
      }
      if !updated || !HasId(files, id) {
        return false;
      }
      files := SetContent(files, id, content);
      ok := true;
    }

    /** `upload_or_update`: update the file the search finds, or create one. */
    method UploadOrUpdate(content: Bytes, name: string, listed: bool, written: bool, newId: string)
      returns (result: DriveResult)
      modifies this
      ensures available == old(available)
      ensures result.fileName == name
      ensures result.success ==> result.fileId.Some?
      ensures var existing := if old(available) && listed then Lookup(old(files), folderId, name) else None;
              existing.Some? ==>
                result.action == "updated" && result.fileId == Some(existing.value.id) &&
                result.success == (available && written) &&
                files == if result.success then SetContent(old(files), existing.value.id, content) else old(files)
      ensures var existing := if old(available) && listed then Lookup(old(files), folderId, name) else None;
              existing.None? ==>
                result.action == "created" &&
                result.success == (available && written && newId != "") &&
                result.fileId == (if available && written then Some(newId) else None) &&
                files == if available && written then old(files) + [DriveFile(newId, name, folderId, false, content)] else old(files)
      ensures (result, files) == UploadOrUpdateOutcome(old(files), old(available), folderId, content, name, listed, written, newId)
    {
      var existing := SearchFile(name, listed);
      if existing.Some? {
        LookupHasId(files, folderId, name);
        var success := UpdateFile(existing.value.id, content, name, written);
        return DriveResult(success, "updated", Some(existing.value.id), name);
      }
      var fileId := UploadFile(content, name, written, newId);
      result := DriveResult(fileId.Some? && fileId.value != "", "created", fileId, name);
    }
  }

  /** The file the search finds is on the drive. */
  lemma LookupHasId(files: seq<DriveFile>, folder: string, name: string)
    ensures Lookup(files, folder, name).Some? ==> HasId(files, Lookup(files, folder, name).value.id)
  {
  }

  /** After a create, the search for that name finds the earlier visible file
      if there was one and the new file otherwise. */
  lemma LookupAfterCreate(files: seq<DriveFile>, folder: string, f: DriveFile)
    requires f.parent == folder && !f.trashed
    ensures Lookup(files + [f], folder, f.name) ==
              if Lookup(files, folder, f.name).Some? then Lookup(files, folder, f.name) else Some(f)
    decreases |files|
  {
    if files != [] {
      assert (files + [f])[1..] == files[1..] + [f];
      LookupAfterCreate(files[1..], folder, f);
    }
  }

  /** One more visible file adds one to the count. */
  lemma {:induction false} VisibleCountAppend(files: seq<DriveFile>, folder: string, name: string, f: DriveFile)
    ensures VisibleCount(files + [f], folder, name) ==
              VisibleCount(files, folder, name) + (if Visible(f, folder, name) then 1 else 0)
    decreases |files|
  {
    if files == [] {
      assert VisibleCount([f], folder, name) == (if Visible(f, folder, name) then 1 else 0) + VisibleCount([], folder, name);
    } else {
      assert (files + [f])[1..] == files[1..] + [f];
      VisibleCountAppend(files[1..], folder, name, f);
    }
  }

  /** Replacing content changes neither names, folders nor trash flags, so
      the same files stay visible. */
  lemma {:induction false} SetContentKeepsVisible(files: seq<DriveFile>, id: string, content: Bytes, folder: string, name: string)
    ensures VisibleCount(SetContent(files, id, content), folder, name) == VisibleCount(files, folder, name)
    ensures Lookup(SetContent(files, id, content), folder, name).Some? == Lookup(files, folder, name).Some?
    decreases |files|
  {
    if files != [] {
      assert SetContent(files, id, content)[1..] == SetContent(files[1..], id, content);
      SetContentKeepsVisible(files[1..], id, content, folder, name);
    }
  }

  /** `upload_or_update` twice with the same name: the first call creates
      the file, the second finds it and updates it, and the folder then
      holds exactly one visible file of that name, with the newest content. */
  lemma RepeatedUploadUpdates(files: seq<DriveFile>, folder: string, name: string,
                              newId: string, first: Bytes, second: Bytes)
    requires Lookup(files, folder, name).None?
    requires !HasId(files, newId)
    ensures var created := files + [DriveFile(newId, name, folder, false, first)];
            Lookup(created, folder, name) == Some(DriveFile(newId, name, folder, false, first)) &&
            VisibleCount(created, folder, name) == 1 &&
            VisibleCount(SetContent(created, newId, second), folder, name) == 1 &&
            Lookup(SetContent(created, newId, second), folder, name) == Some(DriveFile(newId, name, folder, false, second))
  {
    var f := DriveFile(newId, name, folder, false, first);
    var created := files + [f];
    LookupAfterCreate(files, folder, f);
    VisibleCountAppend(files, folder, name, f);
    SetContentKeepsVisible(created, newId, second, folder, name);
    SetContentOfCreated(files, f, second);
    LookupAfterCreate(files, folder, f.(content := second));
  }

  /** Writing to the file just created touches that file alone. */
  lemma SetContentOfCreated(files: seq<DriveFile>, f: DriveFile, content: Bytes)
    requires !HasId(files, f.id)
    ensures SetContent(files + [f], f.id, content) == files + [f.(content := content)]
  {
    var r, expected := SetContent(files + [f], f.id, content), files + [f.(content := content)];
    forall i | 0 <= i < |files| + 1
      ensures r[i] == expected[i]
    {
      if i < |files| {
        assert (files + [f])[i] == files[i];
      }
    }
  }
}
