/** The batch upload manager of the upload page: an ordered list of files,
    each with a lifecycle status (waiting, uploading, uploaded, failed), an
    admission check (capacity and CSV type), removal, reset, and one batch
    request for every waiting file whose resolution settles exactly the
    files it carried. */
module FileUploader {
  import opened Basics

  /** Largest number of files the batch holds. */
  const MAX_FILES: nat := 55
  /** Multipart field under which every file of the request travels. */
  const FIELD_NAME: string := "files"
  const CSV_SUFFIX: string := ".csv"
  const CSV_TYPE: string := "text/csv"
  const UPLOAD_ERROR_PREFIX: string := "Error al subir los archivos: "
  const UNKNOWN_ERROR: string := "Error desconocido"

  /** What the manager reads of a browser `File`: its name and declared MIME type. */
  datatype FileRef = FileRef(name: string, mimeType: string)

  datatype Status = Waiting | Uploading | Uploaded | Failed

  /** `FileWithStatus`: a file, its id, its progress percentage, its status
      and the error message of a failed upload. */
  datatype Item = Item(file: FileRef, id: string, progress: int, status: Status, error: Option<string>)

  /** The toasts the manager shows. */
  datatype Diagnostic =
    | TooManyFiles(limit: nat, current: nat)
    | NotCsv(name: string)
    | NothingPending
    | UploadSucceeded

  /** Why a batch request failed: a response whose `ok` is false (with its
      `statusText`), or an exception — an `Error` with its message, or
      some other thrown value (`None`). */
  datatype Failure = NotOk(statusText: string) | Threw(message: Option<string>)

  /** The single multipart request of an upload: field name and files, in order. */
  datatype Request = Request(field: string, files: seq<FileRef>)

  /** The batch after an admission and the diagnostics it produced. */
  datatype Admitted = Admitted(items: seq<Item>, diags: seq<Diagnostic>)

  // ---------------------------------------------------------------- admission

  /** `toLowerCase` on the ASCII letters. */
  function LowerChar(c: char): char
  {
    if 'A' <= c <= 'Z' then (c as int + 32) as char else c
  }

  function Lower(s: string): string
  {
    if s == [] then [] else [LowerChar(s[0])] + Lower(s[1..])
  }

  predicate EndsWith(s: string, suffix: string)
  {
    |suffix| <= |s| && s[|s| - |suffix|..] == suffix
  }

  /** The CSV test of the admission filter: lower-cased name ending in
      `.csv`, or declared type `text/csv`. */
  predicate IsCsv(f: FileRef)
  {
    EndsWith(Lower(f.name), CSV_SUFFIX) || f.mimeType == CSV_TYPE
  }

  predicate IsNotCsv(f: FileRef)
  {
    !IsCsv(f)
  }

  /** A just-admitted item: waiting, progress 0, no error, and an id that
      starts with the file name and a dash. */
  predicate Fresh(it: Item)
  {
    it.status == Waiting && it.progress == 0 && it.error == None && it.file.name + "-" <= it.id
  }

  /** The files of a list of items, in order. */
  function Files(items: seq<Item>): (r: seq<FileRef>)
    ensures |r| == |items|
    ensures forall k :: 0 <= k < |items| ==> r[k] == items[k].file
  {
    if items == [] then [] else [items[0].file] + Files(items[1..])
  }

  /** One "not a CSV" diagnostic per file, in order. */
  function Rejections(cs: seq<FileRef>): (r: seq<Diagnostic>)
    ensures |r| == |cs|
    ensures forall k :: 0 <= k < |cs| ==> r[k] == NotCsv(cs[k].name)
  {
    if cs == [] then [] else [NotCsv(cs[0].name)] + Rejections(cs[1..])
  }

  /** The `map` of the admission: each accepted file becomes a fresh item,
      in order. `stamp(i)` stands for the timestamp and random suffix drawn
      for the `i`-th accepted file (counting from `from`). */
  function NewItems(fs: seq<FileRef>, stamp: nat -> string, from: nat): (r: seq<Item>)
    ensures Files(r) == fs
    ensures forall k :: 0 <= k < |r| ==> Fresh(r[k])
    decreases |fs|
  {
    if fs == [] then []
    else
      var f := fs[0];
      var id := f.name + "-" + stamp(from);
      var rest := NewItems(fs[1..], stamp, from + 1);
      assert ([Item(f, id, 0, Waiting, None)] + rest)[1..] == rest;
      assert id[..|f.name + "-"|] == f.name + "-";
      [Item(f, id, 0, Waiting, None)] + rest
  }

  /** `handleFileSelect`: no selection changes nothing; a selection that
      would take the batch past `MAX_FILES` — counting every candidate,
      CSV or not — is refused whole with one capacity diagnostic; otherwise
      the CSV candidates are appended as fresh items after the existing
      ones, in candidate order, and each other candidate is reported. */
  function Admission(items: seq<Item>, selection: Option<seq<FileRef>>, stamp: nat -> string): (r: Admitted)
    ensures selection.None? ==> r == Admitted(items, [])
    ensures selection.Some? && |items| + |selection.value| > MAX_FILES ==>
              r == Admitted(items, [TooManyFiles(MAX_FILES, |items|)])
    ensures selection.Some? && |items| + |selection.value| <= MAX_FILES ==>
              && |items| <= |r.items| <= MAX_FILES
              && r.items[..|items|] == items
              && Files(r.items[|items|..]) == Filter(selection.value, IsCsv)
              && (forall k :: |items| <= k < |r.items| ==> Fresh(r.items[k]))
              && r.diags == Rejections(Filter(selection.value, IsNotCsv))
    ensures |items| <= MAX_FILES ==> |r.items| <= MAX_FILES
  {
    match selection
    case None => Admitted(items, [])
    case Some(cs) =>
      if |items| + |cs| > MAX_FILES then Admitted(items, [TooManyFiles(MAX_FILES, |items|)])
      else
        var added := NewItems(Filter(cs, IsCsv), stamp, 0);
        assert (items + added)[|items|..] == added;
        Admitted(items + added, Rejections(Filter(cs, IsNotCsv)))
  }

  // ---------------------------------------------------------------- removal

  /** Number of items whose id is `id`. */
  function Occurrences(items: seq<Item>, id: string): nat
  {
    if items == [] then 0 else (if items[0].id == id then 1 else 0) + Occurrences(items[1..], id)
  }

  /** A filter that keeps exactly the items whose id differs from `id`
      drops exactly the occurrences of `id`. */
  lemma {:induction false} FilterDropsOccurrences(items: seq<Item>, id: string, keep: Item -> bool)
    requires forall it :: keep(it) <==> it.id != id
    ensures |Filter(items, keep)| + Occurrences(items, id) == |items|
  {
    if items != [] {
      FilterDropsOccurrences(items[1..], id, keep);
    }
  }

  /** `removeFile`: the items whose id differs from `id`, in order. */
  function Without(items: seq<Item>, id: string): (r: seq<Item>)
    ensures forall k :: 0 <= k < |r| ==> r[k].id != id && r[k] in items
    ensures forall k :: 0 <= k < |items| && items[k].id != id ==> items[k] in r
    ensures Subsequence(r, items)
    ensures |r| == |items| - Occurrences(items, id)
    ensures (forall k :: 0 <= k < |items| ==> items[k].id != id) ==> r == items
  {
    var keep := (it: Item) => it.id != id;
    FilterIsSubsequence(items, keep);
    FilterKeepsAll(items, keep);
    FilterDropsOccurrences(items, id, keep);
    Filter(items, keep)
  }

  // ---------------------------------------------------------------- upload

  predicate IsWaiting(it: Item)
  {
    it.status == Waiting
  }

  /** The items an upload takes: the waiting ones, in batch order. */
  function Pending(items: seq<Item>): (r: seq<Item>)
    ensures forall k :: 0 <= k < |r| ==> r[k].status == Waiting && r[k] in items
    ensures forall k :: 0 <= k < |items| && items[k].status == Waiting ==> items[k] in r
    ensures Subsequence(r, items)
    ensures |r| == Count(items, Waiting)
  {
    FilterIsSubsequence(items, IsWaiting);
    WaitingFilterCount(items);
    Filter(items, IsWaiting)
  }

  /** Filtering the waiting items keeps as many as the waiting count. */
  lemma {:induction false} WaitingFilterCount(items: seq<Item>)
    ensures |Filter(items, IsWaiting)| == Count(items, Waiting)
  {
    if items != [] {
      var init, last := items[..|items| - 1], items[|items| - 1];
      WaitingFilterCount(init);
      assert items == init + [last];
      FilterSnoc(init, last, IsWaiting);
    }
  }

  function Ids(items: seq<Item>): set<string>
  {
    set k | 0 <= k < |items| :: items[k].id
  }

  ghost predicate UniqueIds(items: seq<Item>)
  {
    forall i, j :: 0 <= i < j < |items| ==> items[i].id != items[j].id
  }

  /** The upload button is disabled when no item is waiting. */
  predicate UploadDisabled(items: seq<Item>)
  {
    !exists k :: 0 <= k < |items| && items[k].status == Waiting
  }

  function Started(it: Item): Item
  {
    it.(status := Uploading, progress := 0)
  }

  function Succeeded(it: Item): Item
  {
    it.(status := Uploaded, progress := 100)
  }

  /** The message stored on a failed item: the prefixed status text for a
      response that is not ok, an exception's own message, or the generic
      message for a thrown value that is not an `Error`. */
  function ErrorMessage(cause: Failure): (r: string)
    ensures cause.NotOk? ==> UPLOAD_ERROR_PREFIX <= r && r[|UPLOAD_ERROR_PREFIX|..] == cause.statusText
    ensures cause.Threw? && cause.message.Some? ==> r == cause.message.value
    ensures cause == Threw(None) ==> r == UNKNOWN_ERROR
  {
    match cause
    case NotOk(text) => UPLOAD_ERROR_PREFIX + text
    case Threw(Some(m)) => m
    case Threw(None) => UNKNOWN_ERROR
  }

  function FailedWith(it: Item, cause: Failure): Item
  {
    it.(status := Failed, error := Some(ErrorMessage(cause)))
  }

  /** With unique ids, the id snapshot of an upload picks out exactly the
      items that were waiting. */
  lemma SnapshotIsExactlyWaiting(items: seq<Item>)
    requires UniqueIds(items)
    ensures forall i :: 0 <= i < |items| ==> (items[i].id in Ids(Pending(items)) <==> items[i].status == Waiting)
  {
    var p := Pending(items);
    forall i | 0 <= i < |items| && items[i].id in Ids(p)
      ensures items[i].status == Waiting
    {
      var j :| 0 <= j < |p| && p[j].id == items[i].id;
      assert p[j] in items;
      var m :| 0 <= m < |items| && items[m] == p[j];
      assert m == i;
    }
    forall i | 0 <= i < |items| && items[i].status == Waiting
      ensures items[i].id in Ids(p)
    {
      assert items[i] in p;
      var j :| 0 <= j < |p| && p[j] == items[i];
    }
  }

  // ---------------------------------------------------------------- status counts

  /** Number of items with status `s`. */
  function Count(items: seq<Item>, s: Status): nat
  {
    if items == [] then 0
    else Count(items[..|items| - 1], s) + (if items[|items| - 1].status == s then 1 else 0)
  }

  /** Every item has exactly one of the four statuses. */
  lemma {:induction false} CountsPartition(items: seq<Item>)
    ensures Count(items, Waiting) + Count(items, Uploading) + Count(items, Uploaded) + Count(items, Failed) == |items|
  {
    if items != [] {
      CountsPartition(items[..|items| - 1]);
    }
  }

  /** The upload button is disabled exactly when nothing is pending, that
      is, when the waiting count is zero. */
  lemma {:induction false} UploadDisabledIffNothingPending(items: seq<Item>)
    ensures UploadDisabled(items) <==> Pending(items) == []
    ensures UploadDisabled(items) <==> Count(items, Waiting) == 0
  {
    if items != [] {
      var init := items[..|items| - 1];
      UploadDisabledIffNothingPending(init);
      assert forall k :: 0 <= k < |init| ==> init[k] == items[k];
      if !UploadDisabled(items) {
        var k :| 0 <= k < |items| && items[k].status == Waiting;
        assert items[k] in Pending(items);
      }
      if Pending(items) != [] {
        assert Pending(items)[0] in items;
      }
    }
  }

  /** `statusCounts`: the number of items per status, with a key only for
      the statuses that occur. */
  method StatusCounts(items: seq<Item>) returns (counts: map<Status, nat>)
    ensures forall s :: s in counts <==> Count(items, s) > 0
    ensures forall s :: s in counts ==> counts[s] == Count(items, s)
  {
    counts := map[];
    var k := 0;
    while k < |items|
      invariant 0 <= k <= |items|
      invariant forall s :: s in counts <==> Count(items[..k], s) > 0
      invariant forall s :: s in counts ==> counts[s] == Count(items[..k], s)
    {
      var st := items[k].status;
      counts := counts[st := (if st in counts then counts[st] else 0) + 1];
      assert items[..k + 1][..k] == items[..k];
      k := k + 1;
    }
    assert items[..|items|] == items;
  }

  /** One per-item update of the upload loop: the items with id `id` become uploading. */
  function StartId(items: seq<Item>, id: string): (r: seq<Item>)
    ensures |r| == |items|
    ensures forall i :: 0 <= i < |items| ==> r[i] == if items[i].id == id then Started(items[i]) else items[i]
  {
    seq(|items|, i requires 0 <= i < |items| => if items[i].id == id then Started(items[i]) else items[i])
  }

  lemma IdsSnoc(s: seq<Item>, j: nat)
    requires j < |s|
    ensures Ids(s[..j + 1]) == Ids(s[..j]) + {s[j].id}
  {
    assert s[..j + 1] == s[..j] + [s[j]];
    forall x | x in Ids(s[..j + 1]) ensures x in Ids(s[..j]) + {s[j].id} {
      var k :| 0 <= k < j + 1 && s[..j + 1][k].id == x;
      if k < j { assert s[..j][k].id == x; }
    }
    forall x | x in Ids(s[..j]) ensures x in Ids(s[..j + 1]) {
      var k :| 0 <= k < j && s[..j][k].id == x;
      assert s[..j + 1][k].id == x;
    }
    assert s[..j + 1][j].id == s[j].id;
  }

  // ---------------------------------------------------------------- the manager

  /** The component's `files` state and the operations that replace it. */
  class Batch {
    var items: seq<Item>

    ghost predicate Valid()
      reads this
    {
      |items| <= MAX_FILES
    }

    constructor ()
      ensures Valid() && items == []
    {
      items := [];
    }

    /** `resetFiles`. */
    method Reset()
      modifies this
      ensures Valid() && items == []
    {
      items := [];
    }

    /** `removeFile`. */
    method Remove(id: string)
      requires Valid()
      modifies this
      ensures Valid()
      ensures items == Without(old(items), id)
    {
      items := Without(items, id);
    }

    /** `handleFileSelect`. */
    method Admit(selection: Option<seq<FileRef>>, stamp: nat -> string) returns (diags: seq<Diagnostic>)
      requires Valid()
      modifies this
      ensures Valid()
      ensures Admitted(items, diags) == Admission(old(items), selection, stamp)
    {
      var r := Admission(items, selection, stamp);
      items, diags := r.items, r.diags;
    }

    /** The first half of `uploadFiles`: snapshot the waiting items; with
        none, report it and change nothing; otherwise mark each snapshotted
        id as uploading with progress 0, one update per item, and build the
        one request carrying their files under `files`, in batch order. */
    method BeginUpload() returns (request: Option<Request>, snapshot: set<string>, diags: seq<Diagnostic>)
      requires Valid()
      modifies this
      ensures Valid()
      ensures snapshot == Ids(Pending(old(items)))
      ensures Pending(old(items)) == [] ==> request == None && diags == [NothingPending] && items == old(items)
      ensures Pending(old(items)) != [] ==>
                request == Some(Request(FIELD_NAME, Files(Pending(old(items))))) && diags == []
      ensures |items| == |old(items)|
      ensures forall i :: 0 <= i < |items| ==>
                items[i] == if old(items)[i].id in snapshot then Started(old(items)[i]) else old(items)[i]
    {
      var pending := Pending(items);
      snapshot := Ids(pending);
      if pending == [] {
        request, diags := None, [NothingPending];
        return;
      }
      MarkStarted(pending);
      request, diags := Some(Request(FIELD_NAME, Files(pending))), [];
    }

    /** The per-item loop of the upload: one update per pending item, each
        marking the items with that id as uploading. */
    method MarkStarted(pending: seq<Item>)
      requires Valid()
      modifies this
      ensures Valid()
      ensures |items| == |old(items)|
      ensures forall i :: 0 <= i < |items| ==>
                items[i] == if old(items)[i].id in Ids(pending) then Started(old(items)[i]) else old(items)[i]
    {
      ghost var before := items;
      var j := 0;
      while j < |pending|
        invariant 0 <= j <= |pending|
        invariant |items| == |before|
        invariant forall i :: 0 <= i < |items| ==>
                    items[i] == if before[i].id in Ids(pending[..j]) then Started(before[i]) else before[i]
      {
        items := StartId(items, pending[j].id);
        IdsSnoc(pending, j);
        j := j + 1;
      }
      assert pending[..j] == pending;
    }

    /** Resolution of the request with an ok response: exactly the
        snapshotted ids become uploaded with progress 100, and the success
        toast is shown. */
    method CompleteOk(snapshot: set<string>) returns (diags: seq<Diagnostic>)
      requires Valid()
      modifies this
      ensures Valid()
      ensures diags == [UploadSucceeded]
      ensures |items| == |old(items)|
      ensures forall i :: 0 <= i < |items| ==>
                items[i] == if old(items)[i].id in snapshot then Succeeded(old(items)[i]) else old(items)[i]
    {
      var cur := items;
      items := seq(|cur|, i requires 0 <= i < |cur| => if cur[i].id in snapshot then Succeeded(cur[i]) else cur[i]);
      diags := [UploadSucceeded];
    }

    /** Resolution by an exception or a response that is not ok: exactly
        the snapshotted ids become failed with the cause's message; their
        progress is left as it was. */
    method CompleteErr(snapshot: set<string>, cause: Failure)
      requires Valid()
      modifies this
      ensures Valid()
      ensures |items| == |old(items)|
      ensures forall i :: 0 <= i < |items| ==>
                items[i] == if old(items)[i].id in snapshot then FailedWith(old(items)[i], cause) else old(items)[i]
    {
      var cur := items;
      items := seq(|cur|, i requires 0 <= i < |cur| => if cur[i].id in snapshot then FailedWith(cur[i], cause) else cur[i]);
    }
  }
}
