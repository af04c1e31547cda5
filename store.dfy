/** The `resumes` table and the three endpoints that use it: the upload
    batch, which appends one row per file; the rank request, which scores,
    persists and ranks every row; and the retrieval of a stored file by id. */
module Store {
  import opened Records
  import opened Text
  import opened Ranking

  /** The directory uploaded files are written to. */
  const UploadDir: string := "uploaded_resumes"

  /** The fields the extractor hands back for one document. */
  datatype Extracted = Extracted(
    name: string,
    phone: string,
    email: string,
    qualification: string,
    skills: string,
    experience: int)

  /** `extract_entities`: the document text is read and discarded; the
      fields are fixed placeholder values. Whether the reader accepts the
      document is decided by `Processed` below. */
  function ExtractEntities(document: seq<bv8>): Extracted
  {
    Extracted("Extracted Name", "0000000000", "example@example.com", "Bachelor", "Python,Flutter", 2)
  }

  /** Whether one uploaded file gets through `open(path, "wb")` and
      `PdfReader`. An empty name makes the path the upload directory itself,
      which cannot be opened for writing, and the reader refuses an empty
      file; beyond that, `writable` says whether the file system lets the
      path be written and `parses` whether the reader accepts the bytes. */
  predicate Processed(file: UploadFile, writable: string -> bool, parses: seq<bv8> -> bool)
  {
    && file.filename != []
    && writable(JoinPath(UploadDir, file.filename))
    && file.content != []
    && parses(file.content)
  }

  /** The row added for one uploaded file, before the database gives it `id`. */
  function NewRecord(id: int, file: UploadFile): Resume
  {
    var e := ExtractEntities(file.content);
    Resume(id, e.name, e.phone, e.email, e.qualification, e.skills, e.experience,
           JoinPath(UploadDir, file.filename), 0.0)
  }

  /** The largest id in the table, 0 for an empty table. */
  function MaxId(rows: seq<Resume>): (m: int)
    ensures m >= 0
    ensures forall i :: 0 <= i < |rows| ==> rows[i].id <= m
    ensures m == 0 || exists i :: 0 <= i < |rows| && rows[i].id == m
  {
    if rows == [] then 0
    else
      var m := MaxId(rows[..|rows| - 1]);
      var last := rows[|rows| - 1].id;
      if last > m then last else m
  }

  /** The id the table gives the next inserted row: one more than the
      largest id, 1 for an empty table (the rowid rule of SQLite). */
  function NextRowId(rows: seq<Resume>): int
  {
    MaxId(rows) + 1
  }

  /** The rows one upload batch appends, the `i`th file getting id `base + i`. */
  function IntakeRecords(base: int, files: seq<UploadFile>): seq<Resume>
  {
    seq(|files|, i requires 0 <= i < |files| => NewRecord(base + i, files[i]))
  }

  lemma IntakeRecordsSnoc(base: int, files: seq<UploadFile>, i: int)
    requires 0 <= i < |files|
    ensures IntakeRecords(base, files[..i + 1]) == IntakeRecords(base, files[..i]) + [NewRecord(base + i, files[i])]
  {
  }

  /** Ids are positive and unique (the table's primary key). */
  ghost predicate WellFormed(rows: seq<Resume>)
  {
    && (forall i :: 0 <= i < |rows| ==> rows[i].id >= 1)
    && (forall i, j :: 0 <= i < j < |rows| ==> rows[i].id != rows[j].id)
  }

  /** `query(Resume).filter(Resume.id == id).first()`. */
  function FindById(rows: seq<Resume>, id: int): (found: Option<Resume>)
    ensures found.None? <==> forall i :: 0 <= i < |rows| ==> rows[i].id != id
    ensures found.Some? ==> found.value in rows && found.value.id == id
  {
    if rows == [] then None
    else if rows[0].id == id then Some(rows[0])
    else FindById(rows[1..], id)
  }

  /** What the retrieval endpoint answers. */
  datatype Response =
    | FileResponse(path: string, filename: string)
    | NotFound(status: int, detail: string)

  function ResponseFor(found: Option<Resume>): Response
  {
    match found
    case Some(r) => FileResponse(r.filePath, Basename(r.filePath))
    case None => NotFound(404, "Resume not found")
  }

  // ---------------------------------------------------------------------
  // Lemmas

  /** The lookup returns the first row with the id. */
  lemma {:induction false} FindByIdFirst(rows: seq<Resume>, id: int, i: int)
    requires 0 <= i < |rows| && rows[i].id == id
    requires forall j :: 0 <= j < i ==> rows[j].id != id
    ensures FindById(rows, id) == Some(rows[i])
  {
    if i > 0 {
      FindByIdFirst(rows[1..], id, i - 1);
    }
  }

  /** In a well-formed table, the row with the id is the one found. */
  lemma FindByIdUnique(rows: seq<Resume>, id: int, i: int)
    requires WellFormed(rows)
    requires 0 <= i < |rows| && rows[i].id == id
    ensures FindById(rows, id) == Some(rows[i])
  {
    FindByIdFirst(rows, id, i);
  }

  /** An upload batch keeps the table well formed, and the new rows get
      consecutive ids above every id already present, in file order. */
  lemma IntakeKeepsIdsUnique(rows: seq<Resume>, files: seq<UploadFile>)
    requires WellFormed(rows)
    ensures WellFormed(rows + IntakeRecords(NextRowId(rows), files))
    ensures forall i :: 0 <= i < |files| ==>
      IntakeRecords(NextRowId(rows), files)[i].id == NextRowId(rows) + i
    ensures forall i, j :: 0 <= i < |rows| && 0 <= j < |files| ==>
      rows[i].id < IntakeRecords(NextRowId(rows), files)[j].id
  {
    var all := rows + IntakeRecords(NextRowId(rows), files);
    forall i, j | 0 <= i < j < |all| ensures all[i].id != all[j].id {
      if j < |rows| {
        assert all[i] == rows[i] && all[j] == rows[j];
      } else if i < |rows| {
        assert all[i] == rows[i];
      }
    }
  }

  /** Every file of an upload batch can then be fetched by its new id: the
      lookup finds its row, the answer carries the path the file was written
      to, and, when the name holds no '/', the file's own name. */
  lemma UploadedFileRetrievable(rows: seq<Resume>, files: seq<UploadFile>, i: int)
    requires WellFormed(rows)
    requires 0 <= i < |files|
    ensures FindById(rows + IntakeRecords(NextRowId(rows), files), NextRowId(rows) + i)
      == Some(NewRecord(NextRowId(rows) + i, files[i]))
    ensures ResponseFor(FindById(rows + IntakeRecords(NextRowId(rows), files), NextRowId(rows) + i)).path
      == JoinPath(UploadDir, files[i].filename)
    ensures (files[i].filename == [] || files[i].filename[0] != '/') ==>
      ResponseFor(FindById(rows + IntakeRecords(NextRowId(rows), files), NextRowId(rows) + i)).path
      == UploadDir + "/" + files[i].filename
    ensures '/' !in files[i].filename ==>
      ResponseFor(FindById(rows + IntakeRecords(NextRowId(rows), files), NextRowId(rows) + i))
      == FileResponse(JoinPath(UploadDir, files[i].filename), files[i].filename)
  {
    var all := rows + IntakeRecords(NextRowId(rows), files);
    IntakeKeepsIdsUnique(rows, files);
    assert all[|rows| + i] == NewRecord(NextRowId(rows) + i, files[i]);
    FindByIdUnique(all, NextRowId(rows) + i, |rows| + i);
    if '/' !in files[i].filename {
      BasenameOfJoin(UploadDir, files[i].filename);
    }
  }

  /** Rescoring keeps the table well formed: ids do not change. */
  lemma RescoreKeepsIds(rows: seq<Resume>, k: Criteria)
    requires WellFormed(rows)
    ensures WellFormed(Rescore(rows, k))
    ensures forall i :: 0 <= i < |rows| ==> Rescore(rows, k)[i].id == rows[i].id
  {
    RescoreChangesOnlyScores(rows, k);
  }

  // ---------------------------------------------------------------------
  // The table

  class ResumeStore {
    var rows: seq<Resume>

    ghost predicate Valid()
      reads this
    {
      WellFormed(rows)
    }

    constructor ()
      ensures Valid() && rows == []
    {
      rows := [];
    }

    /** `upload_resumes`: the rows of the batch are collected one file at a
        time and committed together. When every file is processed, the table
        gains one row per file, in order, with the extractor's fields, the
        file's path under the upload directory, a score of 0 and the next
        id. The first file that is not processed ends the request with an
        error before the commit, and the table keeps its old rows. */
    method Upload(files: seq<UploadFile>, writable: string -> bool, parses: seq<bv8> -> bool)
      returns (ok: bool)
      requires Valid()
      modifies this
      ensures Valid()
      ensures ok <==> forall i :: 0 <= i < |files| ==> Processed(files[i], writable, parses)
      ensures ok ==> rows == old(rows) + IntakeRecords(NextRowId(old(rows)), files)
      ensures !ok ==> rows == old(rows)
    {
      var base := NextRowId(rows);
      var pending: seq<Resume> := [];
      for i := 0 to |files|
        invariant rows == old(rows)
        invariant pending == IntakeRecords(base, files[..i])
        invariant forall j :: 0 <= j < i ==> Processed(files[j], writable, parses)
      {
        if !Processed(files[i], writable, parses) {
          return false;
        }
        IntakeRecordsSnoc(base, files, i);
        pending := pending + [NewRecord(base + i, files[i])];
      }
      assert files[..|files|] == files;
      IntakeKeepsIdsUnique(rows, files);
      rows := rows + pending;
      ok := true;
    }

    /** `rank_resumes`: every row takes its score (and keeps every other
        field), and the answer is the projected top `resumes_selected` of the
        rows sorted by score, high to low, stable. */
    method Rank(k: Criteria) returns (result: seq<Summary>)
      requires Valid()
      modifies this
      ensures Valid()
      ensures rows == Rescore(old(rows), k)
      ensures result == RankResult(old(rows), k)
    {
      var candidates := rows;
      var ranked := ScoreAll(candidates, k);
      RescoreKeepsIds(candidates, k);
      // The scored records are the table's own rows: committing them
      // persists every new score, in the table's order.
      rows := ranked;
      ranked := SortByScore(ranked);
      result := TopN(ranked, k.resumesSelected);
    }

    /** `get_resume`: the file of the row with the id, or 404. */
    method GetResume(id: int) returns (response: Response)
      requires Valid()
      ensures response == ResponseFor(FindById(rows, id))
      ensures response.NotFound? <==> forall i :: 0 <= i < |rows| ==> rows[i].id != id
      ensures response.NotFound? ==> response == NotFound(404, "Resume not found")
      ensures forall i :: 0 <= i < |rows| && rows[i].id == id ==>
        response == FileResponse(rows[i].filePath, Basename(rows[i].filePath))
    {
      var found := FindById(rows, id);
      forall i | 0 <= i < |rows| && rows[i].id == id
        ensures found == Some(rows[i])
      {
        FindByIdUnique(rows, id, i);
      }
      response := ResponseFor(found);
    }
  }
}
