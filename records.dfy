/** Records exchanged by the resume service: the stored candidate row, the
    ranking criteria, the projected ranking entry and one uploaded file. */
module Records {

  datatype Option<T> = None | Some(value: T)

  /** One row of the `resumes` table.  `skills` is the comma-delimited string
      as stored; `score` is 0.0 until a ranking pass overwrites it. */
  datatype Resume = Resume(
    id: int,
    name: string,
    phone: string,
    email: string,
    qualification: string,
    skills: string,
    experience: int,
    filePath: string,
    score: real)

  /** The body of a rank request; `skills` is comma-delimited. */
  datatype Criteria = Criteria(
    qualification: string,
    skills: string,
    experience: int,
    resumesSelected: int)

  /** What a rank request returns per candidate: id, name, phone, email, score. */
  datatype Summary = Summary(id: int, name: string, phone: string, email: string, score: real)

  /** One file of an upload batch. */
  datatype UploadFile = UploadFile(filename: string, content: seq<bv8>)
}
