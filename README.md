# Resume ranking service — a Dafny model

The service takes uploaded resumes, turns each into a candidate row of the
`resumes` table (id, name, phone, email, qualification, skills, experience,
file path, score), and ranks the stored candidates against a hiring
criteria record. This project models the part of `backend/main.py` that has
behaviour to state:

- the scorer `calculate_score`: 40 points for a case-insensitive
  qualification match, up to 40 for the share of required skills the
  candidate has, up to 20 for closeness in years, rounded to two decimals;
- the ranking pass of `rank_resumes`: score every candidate, sort by score
  from high to low (stable), persist every score, return the projected
  top `resumes_selected`;
- the upload loop of `upload_resumes` and the lookup of `get_resume`.

Files:

- `records.dfy` (module `Records`): the row, the criteria, the ranking entry,
  an uploaded file, `Option`.
- `text.dfy` (module `Text`): `lower`/`upper` on ASCII letters, `split(",")`
  and its inverse `",".join`, `os.path.join` and `os.path.basename`.
- `scoring.dfy` (module `Scoring`): the three terms, `round(x, 2)`, the score,
  and two worked examples.
- `ranking.dfy` (module `Ranking`): the scoring loop as a method, the stable
  sort as a function characterised by its properties, the Python slice and
  the projection.
- `store.dfy` (module `Store`): the table as a class holding `seq<Resume>`,
  with `Upload`, `Rank` and `GetResume`.

Scores are `real`. Ids of new rows follow SQLite's rowid rule for an
integer primary key: one more than the largest id in the table, 1 when it
is empty. The comma-delimited skills are split with Python's semantics: no
trimming, so `"a, b"` gives `" b"`, and `""` gives `[""]`. Because of that
rule the required-skill set is never empty, so `max(len(required), 1)` is
always `len(required)`.

Three behaviours of the code are easy to misread, and the model keeps all three:

- A negative `resumes_selected` does not mean "return nothing". It is a
  Python slice stop, so `ranked[:-2]` drops the last two candidates.
- "A qualification mismatch, no common skill and a gap equal to the target
  years scores 0" only holds when the target is at least 1. With a target
  of 0 and a gap of 0 the experience term is the full 20 points, because
  the denominator floors at 1. `Scoring.ScoreNothing` states the condition
  the code actually needs: a gap of at least `max(target, 1)`.
- One unreadable document fails the whole upload batch, not only itself.
  `open(path, "wb")` (line 72) and `PdfReader` (line 56) raise before the
  commit at line 85, so no row of the batch is stored, although earlier
  files of the batch are already on disk. `Store.ResumeStore.Upload`
  models this: the table is unchanged unless every file is processed.

## Model

| member | source | states |
|---|---|---|
| `Text.Lower` | backend/main.py:96-99 | `str.lower()` on ASCII letters, one character for one; its properties are `Text.LowerIdempotent` and `Text.LowerOfUpper` |
| `Text.JoinPath` | backend/main.py:71 | `os.path.join(UPLOAD_DIR, file.filename)`: an absolute name replaces the directory, otherwise one '/' separates them; `Text.BasenameOfJoin` is its partner |
| `Text.Basename` | backend/main.py:127 | `os.path.basename`: the text after the last '/', which holds no '/' and is no longer than the path |
| `Text.SplitComma` | backend/main.py:98-99 | splitting always yields at least one piece (`"".split(",") == [""]`) |
| `Text.JoinSplit` | backend/main.py:98-99 | joining the pieces with "," gives back the original string: nothing is trimmed or lost |
| `Text.SplitJoin` | backend/main.py:98-99 | splitting the comma-join of one or more comma-free pieces gives back exactly those pieces |
| `Text.SplitPiecesHaveNoComma` | backend/main.py:98-99 | no piece of a split contains a comma |
| `Text.LowerIdempotent` | backend/main.py:96-99 | lower-casing twice is the same as lower-casing once |
| `Text.LowerOfUpper` | backend/main.py:96-99 | lower-casing erases any earlier upper-casing |
| `Text.BasenameOfJoin` | backend/main.py:71 | the base name of `os.path.join(dir, name)` is `name` when `name` holds no '/' |
| `Scoring.Score` | backend/main.py:94-102 | `calculate_score`: the rounded sum of the three terms; `Scoring.ScoreRange`, `Scoring.ScorePerfect`, `Scoring.ScoreNothing` and the case lemmas state its properties |
| `Scoring.RawScore` | backend/main.py:95-101 | the sum before rounding; `Scoring.RawScoreRange` and `Scoring.RawScorePerfect` state its properties |
| `Scoring.QualificationTerm` | backend/main.py:96-97 | 40 points when the qualifications agree after lower-casing; `Scoring.QualificationIgnoresCase` states its property |
| `Scoring.SkillTerm` | backend/main.py:100 | the share of required skills present, times 40; `Scoring.SkillTermRange`, `Scoring.SkillTermFull` and `Scoring.SkillTermNone` state its properties |
| `Scoring.ExperienceTerm` | backend/main.py:101 | closeness in years, floored at 0, times 20; `Scoring.ExperienceTermRange`, `Scoring.ExperienceTermFull` and `Scoring.ExperienceTermZero` state its properties |
| `Scoring.Round2` | backend/main.py:102 | `round(x, 2)` with ties to even; `Scoring.Round2Error`, `Scoring.Round2Range` and `Scoring.Round2Exact` state its properties |
| `Scoring.SkillSet` | backend/main.py:98-99 | the set of lower-cased comma-split tokens is never empty |
| `Scoring.SkillSetTokens` | backend/main.py:98-99 | a token is in the skill set exactly when it is a piece of the lower-cased split, and no token holds a comma |
| `Scoring.QualificationIgnoresCase` | backend/main.py:96-97 | upper- or lower-casing either qualification does not change the qualification points |
| `Scoring.SkillSetIgnoresCase` | backend/main.py:98-99 | upper- or lower-casing a skills string does not change its skill set |
| `Scoring.SkillTermRange` | backend/main.py:100 | the skill points lie in [0, 40] |
| `Scoring.SkillTermFull` | backend/main.py:100 | with at least one required skill, the skill points are 40 exactly when every required skill is among the candidate's |
| `Scoring.SkillTermNone` | backend/main.py:100 | the skill points are 0 exactly when no required skill is among the candidate's |
| `Scoring.ExperienceTermRange` | backend/main.py:101 | the experience points lie in [0, 20] for all integers, including a negative target |
| `Scoring.ExperienceTermFull` | backend/main.py:101 | the experience points are 20 exactly when the years are equal |
| `Scoring.ExperienceTermZero` | backend/main.py:101 | the experience points are 0 exactly when the gap is at least `max(target, 1)` |
| `Scoring.Round2Error` | backend/main.py:102 | rounding to two decimals moves a value by at most 0.005 |
| `Scoring.Round2Range` | backend/main.py:102 | rounding keeps a value in [0, 100] |
| `Scoring.Round2Exact` | backend/main.py:102 | a value that already has two decimals is left unchanged |
| `Scoring.RawScoreRange` | backend/main.py:95-101 | the unrounded sum lies in [0, 100] |
| `Scoring.ScoreRange` | backend/main.py:94-102 | every score lies in [0, 100] |
| `Scoring.RawScorePerfect` | backend/main.py:95-101 | the unrounded sum is 100 exactly when the qualifications match ignoring case, every required skill is present and the years are equal |
| `Scoring.ScorePerfect` | backend/main.py:94-102 | such a perfect match scores exactly 100.00 |
| `Scoring.ScoreNothing` | backend/main.py:94-102 | a qualification mismatch, no common skill and a gap of at least `max(target, 1)` years together score exactly 0.00 |
| `Scoring.ScoreIgnoresCandidateCase` | backend/main.py:96-99 | changing the case of the candidate's qualification and skills does not change the score |
| `Scoring.ScoreIgnoresCriteriaCase` | backend/main.py:96-99 | changing the case of the criteria's qualification and skills does not change the score |
| `Scoring.ExamplePerfectCandidate` | backend/main.py:94-102 | criteria ("bachelor", "python,flutter", 2) against a "Bachelor" with "python,flutter,java" and 2 years scores 100.00 |
| `Scoring.ExampleUnsuitedCandidate` | backend/main.py:94-102 | the same criteria against a "Master" with "java" and 5 years scores 0.00 |
| `Ranking.Rescore` | backend/main.py:105-107 | every scanned candidate with its score overwritten; `Ranking.ScoreAll` computes it and `Ranking.RescoreChangesOnlyScores` states its properties |
| `Ranking.SortByScore` | backend/main.py:109 | `sort(key=score, reverse=True)`; `Ranking.SortPermutes`, `Ranking.SortDescending`, `Ranking.SortStable` and `Ranking.SortUnique` state its properties |
| `Ranking.TopN` | backend/main.py:114-117 | the projection of `ranked[:n]`; `Ranking.TopNEntries` and `Ranking.TopNIsTop` state its properties |
| `Ranking.RankResult` | backend/main.py:104-117 | score, sort, slice and project; `Ranking.RankResultOrdered`, `Ranking.RankResultFromCandidates` and `Ranking.RankResultIsTop` state its properties |
| `Ranking.ScoreAll` | backend/main.py:104-107 | the loop's list holds every scanned candidate in scan order, with its score set to the candidate's own score and nothing else changed |
| `Ranking.RescoreChangesOnlyScores` | backend/main.py:105-107 | after the loop, every candidate (not only the top N) carries its own score, which lies in [0, 100], and all its other fields are unchanged |
| `Ranking.SortPermutes` | backend/main.py:109 | the sorted list is a permutation of the scored list |
| `Ranking.SortDescending` | backend/main.py:109 | after the sort, scores never increase along the list |
| `Ranking.SortStable` | backend/main.py:109 | for every score value, the candidates with that score keep their scan order |
| `Ranking.SortUnique` | backend/main.py:109 | any list that is descending and keeps the scan order within each score is the sorted list |
| `Ranking.SliceLength` | backend/main.py:116 | the length of `ranked[:n]` is `min(n, len)` for `n >= 0` and `max(0, len + n)` for negative `n` |
| `Ranking.TopNEntries` | backend/main.py:114-117 | the result has `min(n, len)` entries for `n >= 0` (none for 0) and drops the last `abs(n)` for negative `n`; entry `i` carries exactly id, name, phone, email and score of ranked candidate `i` |
| `Ranking.TopNIsTop` | backend/main.py:114-117 | over a descending ranking, the result is descending and no returned entry scores below a candidate left out |
| `Ranking.RankResultOrdered` | backend/main.py:104-117 | the response has the slice length for `resumes_selected` and lists scores from high to low |
| `Ranking.RankResultFromCandidates` | backend/main.py:104-117 | each response entry is a scanned candidate's id, name, phone and email, paired with that candidate's own score |
| `Ranking.RankResultIsTop` | backend/main.py:104-117 | no scanned candidate left out of the response scores above any candidate in it |
| `Store.ExtractEntities` | backend/main.py:54-65 | the extractor's fixed placeholder fields; whether the reader accepts the document is `Store.Processed` |
| `Store.Processed` | backend/main.py:54-74 | a file gets through exactly when its name is non-empty, its path can be written, its content is non-empty and the PDF reader accepts it |
| `Store.NewRecord` | backend/main.py:75-83 | the row for one file: the extracted fields, the joined path, score 0 |
| `Store.NextRowId` | backend/main.py:36 | the id SQLite gives the next row; `Store.IntakeKeepsIdsUnique` states what it guarantees |
| `Store.ResponseFor` | backend/main.py:126-129 | the file response for a found row, 404 "Resume not found" otherwise; `Store.UploadedFileRetrievable` is its partner with the upload |
| `Store.FindById` | backend/main.py:124 | the lookup finds nothing exactly when no row has the id; otherwise it returns a stored row that has the id |
| `Store.FindByIdFirst` | backend/main.py:124 | the lookup returns the first row with the id |
| `Store.FindByIdUnique` | backend/main.py:36 | with unique ids, the lookup returns the row that has the id |
| `Store.IntakeKeepsIdsUnique` | backend/main.py:70-85 | an upload batch keeps ids positive and unique; the new rows get consecutive ids in file order, each above every existing id |
| `Store.UploadedFileRetrievable` | backend/main.py:71-84 | after an upload, fetching a new row by its id finds exactly the row made for that file, and the answer's path is `os.path.join` of the upload directory and the file name, which is `uploaded_resumes/` followed by the name unless the name is absolute; when the name holds no '/', the answer's file name is the original one |
| `Store.RescoreKeepsIds` | backend/main.py:105-112 | persisting the new scores keeps every id and the table's unique-id invariant |
| `Store.ResumeStore.Upload` | backend/main.py:68-86 | the request succeeds exactly when every file is processed; then the table gains one row per file, in file order: the extractor's fields, the file path, score 0 and the next id; otherwise the table is unchanged; ids stay unique either way |
| `Store.ResumeStore.Rank` | backend/main.py:90-119 | every stored row gets its new score and keeps all other fields; the response is the projected top `resumes_selected` of the stably sorted rows |
| `Store.ResumeStore.GetResume` | backend/main.py:122-129 | the response is that of the lookup: 404 "Resume not found" exactly when no row has the id; otherwise it is the matching row's file path and base name |

## Left out

- FastAPI routing, CORS, HTTP status plumbing and `FileResponse` streaming are not modelled. `GetResume` returns the path and file name the response would carry, or the 404 status and message.
- The SQLAlchemy engine and session are replaced by the `seq<Resume>` the class holds. This covers `query().all()`, `add`, `bulk_save_objects` and `commit`. Storage errors are not modelled, and neither is concurrent access to the table.
- Writing the uploaded bytes to disk (`copyfileobj`, `makedirs`) is not modelled. That includes last-write-wins when two uploads share a file name: both rows then point at one path.
- PDF text extraction (PyPDF2) is not modelled, because the text it produces is never used: `ExtractEntities` returns the constant fields. Whether the reader accepts a document is not computed from its bytes; it is the `parses` argument of `Upload`, beyond the rule that an empty file is refused.
- Whether the file system lets a path be written (a missing subdirectory in the name, permissions, a full disk) is the `writable` argument of `Upload`, beyond the rule that an empty name is refused. Files written before a failing one stay on disk; that is not modelled.
- Object identity is not modelled. The session's row objects, the scanned list and the ranked list are the same Python objects, but here they are values. After the pass, all three carry the same scores, which is the only consequence the code relies on.
- Ids are given at insertion, in file order, by the rule `max(id) + 1`. The code gets them from SQLite at commit. The model does not cover deleted rows, because the service has no delete operation, and it does not cover the 64-bit rowid limit.
- `list.sort` is a library call, so its algorithm is not modelled. `SortByScore` is an insertion sort, and `SortUnique` shows that any stable descending sort gives the same list.
- Text.Lower: lower-cases only the ASCII letters A-Z. Python's `str.lower` also folds non-ASCII letters.
- Text.Upper: upper-cases only the ASCII letters a-z, for the same reason. So `Text.LowerOfUpper` and the case lemmas built on it (`Scoring.QualificationIgnoresCase`, `Scoring.SkillSetIgnoresCase`, `Scoring.ScoreIgnoresCandidateCase`, `Scoring.ScoreIgnoresCriteriaCase`) hold only for this mapping. In Python, `"ß".upper()` is `"SS"`, which lower-cases to `"ss"`, so upper-casing a non-ASCII qualification can change the match.
- Scoring.Round2: rounds the exact real value half-to-even. Python rounds the binary double nearest the sum, so results can differ where the double is not exact. The divisions are also exact here, while Python divides binary doubles.
- Scoring.ScorePerfect: the converse, that a rounded score of 100.00 means a perfect match, is not claimed. It fails when at least 8000 skills are required and one is missing, because 40·7999/8000 rounds up to 40.00. `RawScorePerfect` states the if-and-only-if for the unrounded sum.
