/**
 * The audio-file service of the transcription tool: which uploads it accepts, in which
 * order it checks them, and the record it creates for an accepted one.
 */
module AudioFiles {
  import opened Wrappers
  import opened Strings
  import opened Uploads

  /** The largest accepted upload: 100 MiB. */
  const MaxAudioSize: int := 100 * 1024 * 1024

  /** The MIME types of mp3 and wav files that uploads may declare. */
  const AudioTypes: set<string> := {"audio/mpeg", "audio/mp3", "audio/wav", "audio/wave", "audio/x-wav"}

  predicate IsValidAudioType(mimeType: string)
  {
    mimeType in AudioTypes
  }

  /** The record an accepted upload asks the repository to create. */
  datatype AudioFileInput = AudioFileInput(
    projectId: int,
    name: string,
    originalFilename: string,
    filePath: string,
    fileSize: int,
    mimeType: string)

  /** Listing a project's audio files: a project id below 1 is refused before the repository is asked. */
  function ListByProjectId<T>(projectId: int, listed: Result<T>): (r: Result<T>)
    ensures r.Success? ==> projectId >= 1 && r == listed
    ensures projectId < 1 ==> r == Failure("invalid project id")
    ensures projectId >= 1 ==> r == listed
  {
    if projectId < 1 then Failure("invalid project id") else listed
  }

  /** Fetching one audio file: an id below 1 is refused before the repository is asked. */
  function GetById<T>(id: int, found: Result<T>): (r: Result<T>)
    ensures r.Success? ==> id >= 1 && r == found
    ensures id < 1 ==> r == Failure("invalid audio file id")
    ensures id >= 1 ==> r == found
  {
    if id < 1 then Failure("invalid audio file id") else found
  }

  /**
   * The checks of an upload, in order: the project id, the declared type, the size. An
   * accepted upload is stored under "<project id>_<timestamp><extension>" in the upload
   * directory and recorded under the file name without its extension.
   */
  function UploadRecord(projectId: int, file: UploadedFile, timestamp: int, uploadPath: string): (r: Result<AudioFileInput>)
    ensures projectId < 1 ==> r == Failure("invalid project id")
    ensures projectId >= 1 && !IsValidAudioType(file.contentType) ==>
      r == Failure("invalid file type: only mp3 and wav files are allowed")
    ensures projectId >= 1 && IsValidAudioType(file.contentType) && file.size > MaxAudioSize ==>
      r == Failure("file too large: maximum size is 100MB")
    ensures r.Success? <==> projectId >= 1 && IsValidAudioType(file.contentType) && file.size <= MaxAudioSize
    ensures r.Success? ==>
      && r.value.projectId == projectId
      && r.value.name + FileExt(file.filename) == file.filename
      && r.value.originalFilename == file.filename
      && r.value.fileSize == file.size
      && r.value.mimeType == file.contentType
      && r.value.filePath == JoinPath(uploadPath, StoredName(projectId, timestamp, file.filename))
  {
    if projectId < 1 then Failure("invalid project id")
    else if !IsValidAudioType(file.contentType) then Failure("invalid file type: only mp3 and wav files are allowed")
    else if file.size > MaxAudioSize then Failure("file too large: maximum size is 100MB")
    else
      var filename := StoredName(projectId, timestamp, file.filename);
      Success(AudioFileInput(
        projectId,
        BaseName(file.filename),
        file.filename,
        JoinPath(uploadPath, filename),
        file.size,
        file.contentType))
  }

  /**
   * An upload: the checks and the record as above, then the repository creates the record;
   * its answer is the result, its error returned as it is (the stored copy is then removed,
   * which the result does not show).
   */
  function Upload<T>(projectId: int, file: UploadedFile, timestamp: int, uploadPath: string,
                     create: AudioFileInput -> Result<T>): (r: Result<T>)
    ensures UploadRecord(projectId, file, timestamp, uploadPath).Failure? ==>
      r == Failure(UploadRecord(projectId, file, timestamp, uploadPath).error)
    ensures UploadRecord(projectId, file, timestamp, uploadPath).Success? ==>
      r == create(UploadRecord(projectId, file, timestamp, uploadPath).value)
    ensures r.Success? <==>
      projectId >= 1 && IsValidAudioType(file.contentType) && file.size <= MaxAudioSize
      && create(UploadRecord(projectId, file, timestamp, uploadPath).value).Success?
  {
    match UploadRecord(projectId, file, timestamp, uploadPath)
    case Failure(e) => Failure(e)
    case Success(input) => create(input)
  }

  /**
   * Deleting an audio file: the id is checked, then the record is looked up and deleted;
   * a failure to remove the stored copy afterwards is only logged, never reported.
   */
  function Delete(id: int, lookup: Outcome, deletion: Outcome): (r: Outcome)
    ensures id < 1 ==> r == Fail("invalid audio file id")
    ensures id >= 1 && lookup.Fail? ==> r == lookup
    ensures id >= 1 && lookup.Pass? ==> r == deletion
  {
    if id < 1 then Fail("invalid audio file id")
    else if lookup.Fail? then lookup
    else deletion
  }

  // ---------------------------------------------------------------------------
  // Properties
  // ---------------------------------------------------------------------------

  /** The project id is checked first: with an invalid one, nothing about the file matters. */
  lemma ProjectIdFirst(projectId: int, f: UploadedFile, g: UploadedFile, t1: int, t2: int, dir1: string, dir2: string)
    requires projectId < 1
    ensures UploadRecord(projectId, f, t1, dir1) == UploadRecord(projectId, g, t2, dir2)
  {
  }

  /** The size limit is inclusive: exactly 100 MiB is accepted, one byte more is not. */
  lemma SizeBoundary(projectId: int, f: UploadedFile, timestamp: int, uploadPath: string)
    requires projectId >= 1 && f.contentType == "audio/wav"
    ensures f.size == 104857600 ==> UploadRecord(projectId, f, timestamp, uploadPath).Success?
    ensures f.size == 104857601 ==> UploadRecord(projectId, f, timestamp, uploadPath).Failure?
  {
  }

  /**
   * For an accepted upload the stored copy keeps the uploaded extension, and two accepted
   * uploads get the same stored name exactly when they are for the same project, in the same
   * second and with the same extension.
   */
  lemma StoredNameMeaning(p1: int, f1: UploadedFile, t1: int, p2: int, f2: UploadedFile, t2: int, uploadPath: string)
    requires t1 >= 0 && t2 >= 0
    requires UploadRecord(p1, f1, t1, uploadPath).Success? && UploadRecord(p2, f2, t2, uploadPath).Success?
    ensures FileExt(StoredName(p1, t1, f1.filename)) == FileExt(f1.filename)
    ensures StoredName(p1, t1, f1.filename) == StoredName(p2, t2, f2.filename) <==>
      p1 == p2 && t1 == t2 && FileExt(f1.filename) == FileExt(f2.filename)
  {
    StoredNameExt(p1, t1, f1.filename);
    if StoredName(p1, t1, f1.filename) == StoredName(p2, t2, f2.filename) {
      StoredNameInjective(p1, t1, f1.filename, p2, t2, f2.filename);
    }
  }

  /**
   * An id below 1 never reaches the repository: listing and lookup refuse it whatever the
   * repository would have answered, and a valid id gets exactly the repository's answer.
   */
  lemma IdChecksFirst<T>(id: int, a: Result<T>, b: Result<T>)
    ensures id < 1 ==> ListByProjectId(id, a) == ListByProjectId(id, b) && GetById(id, a) == GetById(id, b)
    ensures id >= 1 ==> (ListByProjectId(id, a) == ListByProjectId(id, b) <==> a == b)
    ensures id >= 1 ==> (GetById(id, a) == GetById(id, b) <==> a == b)
  {
  }
}
