/**
 * The corpus service of the transcription tool: transcripts (lists of timed segments)
 * uploaded as JSON, the pauses between consecutive segments, and the timeline that merges
 * the transcripts of a group of speakers.
 *
 * Times are exact reals (seconds); the repository's answers are parameters.
 */
module Corpus {
  import opened Wrappers
  import opened Strings
  import opened Sorting
  import opened Uploads

  /** A stored segment. */
  datatype Segment = Segment(
    id: int,
    corpusFileId: int,
    segmentIndex: int,
    startTime: real,
    endTime: real,
    text: string,
    speaker: Option<string>)

  /** A segment as shown: the pause that follows it when long enough, and in a merged view its speaker and audio. */
  datatype SegmentWithGap = SegmentWithGap(
    segment: Segment,
    gapAfter: Option<real>,
    speakerLabel: Option<string>,
    audioFileId: Option<int>)

  // ---------------------------------------------------------------------------
  // Gaps
  // ---------------------------------------------------------------------------

  /** The pause after segment `i`: reported when there is a next segment and the pause is at least `threshold`. */
  function GapAfter(segs: seq<Segment>, i: nat, threshold: real): Option<real>
    requires i < |segs|
  {
    if i < |segs| - 1 && segs[i + 1].startTime - segs[i].endTime >= threshold then
      Some(segs[i + 1].startTime - segs[i].endTime)
    else None
  }

  /** The annotated listing of one transcript. */
  function FileView(segs: seq<Segment>, threshold: real): (r: seq<SegmentWithGap>)
    ensures |r| == |segs|
  {
    seq(|segs|, i requires 0 <= i < |segs| => SegmentWithGap(segs[i], GapAfter(segs, i, threshold), None, None))
  }

  /** Fills a fresh array entry by entry, as the service fills its result slice. */
  method AnnotateFile(segs: seq<Segment>, threshold: real) returns (r: seq<SegmentWithGap>)
    ensures r == FileView(segs, threshold)
  {
    var result := new SegmentWithGap[|segs|];
    for i := 0 to |segs|
      invariant forall k :: 0 <= k < i ==> result[k] == FileView(segs, threshold)[k]
    {
      var gapAfter := None;
      if i < |segs| - 1 {
        var gap := segs[i + 1].startTime - segs[i].endTime;
        if gap >= threshold {
          gapAfter := Some(gap);
        }
      }
      result[i] := SegmentWithGap(segs[i], gapAfter, None, None);
    }
    r := result[..];
  }

  /** The segments of one transcript, listed by the repository in segment order, with their gaps. */
  method GetSegmentsWithGaps(corpusFileId: int, listed: Result<seq<Segment>>, threshold: real)
    returns (r: Result<seq<SegmentWithGap>>)
    ensures corpusFileId < 1 ==> r == Failure("invalid corpus file id")
    ensures corpusFileId >= 1 && listed.Failure? ==> r == Failure(listed.error)
    ensures corpusFileId >= 1 && listed.Success? ==> r == Success(FileView(listed.value, threshold))
  {
    if corpusFileId < 1 {
      return Failure("invalid corpus file id");
    }
    if listed.Failure? {
      return Failure(listed.error);
    }
    var view := AnnotateFile(listed.value, threshold);
    return Success(view);
  }

  // ---------------------------------------------------------------------------
  // The merged timeline of a group
  // ---------------------------------------------------------------------------

  /** A transcript of a group, with the speaker label the group gave it. */
  datatype GroupFile = GroupFile(id: int, audioFileId: Option<int>, speakerLabel: Option<string>)

  datatype MergedSegment = MergedSegment(segment: Segment, speakerLabel: string, audioFileId: Option<int>)

  function LabelOf(f: GroupFile): string
  {
    f.speakerLabel.GetOr("Unknown")
  }

  /** The segments of one transcript, each carrying that transcript's label and audio. */
  function Labelled(f: GroupFile, segs: seq<Segment>): (r: seq<MergedSegment>)
    ensures |r| == |segs|
  {
    seq(|segs|, i requires 0 <= i < |segs| => MergedSegment(segs[i], LabelOf(f), f.audioFileId))
  }

  /** All segments of the group, file after file; the first listing that fails ends the collection. */
  function Collected(files: seq<GroupFile>, segmentsOf: int -> Result<seq<Segment>>): Result<seq<MergedSegment>>
  {
    if files == [] then Success([])
    else
      match Collected(files[..|files| - 1], segmentsOf)
      case Failure(e) => Failure(e)
      case Success(prefix) =>
        match segmentsOf(files[|files| - 1].id)
        case Failure(e) => Failure(e)
        case Success(segs) => Success(prefix + Labelled(files[|files| - 1], segs))
  }

  function SegmentsOf(ms: seq<MergedSegment>): (r: seq<Segment>)
    ensures |r| == |ms| && forall i :: 0 <= i < |ms| ==> r[i] == ms[i].segment
  {
    seq(|ms|, i requires 0 <= i < |ms| => ms[i].segment)
  }

  /** The annotated merged timeline, in the order given. */
  function MergedView(ms: seq<MergedSegment>, threshold: real): (r: seq<SegmentWithGap>)
    ensures |r| == |ms|
  {
    seq(|ms|, i requires 0 <= i < |ms| =>
      SegmentWithGap(ms[i].segment, GapAfter(SegmentsOf(ms), i, threshold), Some(ms[i].speakerLabel), ms[i].audioFileId))
  }

  /** What a merged entry came from, read back from the entry. */
  function Unannotated(r: seq<SegmentWithGap>): (ms: seq<MergedSegment>)
    ensures |ms| == |r|
  {
    seq(|r|, i requires 0 <= i < |r| => MergedSegment(r[i].segment, r[i].speakerLabel.GetOr(""), r[i].audioFileId))
  }

  /** The order the merged timeline is sorted by: earlier start first. */
  predicate StartsNoLater(a: MergedSegment, b: MergedSegment)
  {
    a.segment.startTime <= b.segment.startTime
  }

  lemma StartOrder()
    ensures TotalPreorder(StartsNoLater)
  {
  }

  /** Appends the segments of one transcript, labelled. */
  method AppendLabelled(all: seq<MergedSegment>, f: GroupFile, segs: seq<Segment>) returns (r: seq<MergedSegment>)
    ensures r == all + Labelled(f, segs)
  {
    r := all;
    for j := 0 to |segs|
      invariant r == all + Labelled(f, segs)[..j]
    {
      r := r + [MergedSegment(segs[j], LabelOf(f), f.audioFileId)];
      assert Labelled(f, segs)[..j + 1] == Labelled(f, segs)[..j] + [Labelled(f, segs)[j]];
    }
    assert Labelled(f, segs)[..|segs|] == Labelled(f, segs);
  }

  lemma CollectedStep(files: seq<GroupFile>, segmentsOf: int -> Result<seq<Segment>>, k: nat)
    requires k < |files|
    ensures Collected(files[..k + 1], segmentsOf) ==
      match Collected(files[..k], segmentsOf)
      case Failure(e) => Failure(e)
      case Success(prefix) =>
        match segmentsOf(files[k].id)
        case Failure(e) => Failure(e)
        case Success(segs) => Success(prefix + Labelled(files[k], segs))
  {
    assert files[..k + 1][..k] == files[..k];
  }

  /** Runs through the group's transcripts, stopping at the first listing that fails. */
  method CollectSegments(files: seq<GroupFile>, segmentsOf: int -> Result<seq<Segment>>) returns (r: Result<seq<MergedSegment>>)
    ensures r == Collected(files, segmentsOf)
  {
    var all: seq<MergedSegment> := [];
    for k := 0 to |files|
      invariant Collected(files[..k], segmentsOf) == Success(all)
    {
      CollectedStep(files, segmentsOf, k);
      var segments := segmentsOf(files[k].id);
      if segments.Failure? {
        CollectedFails(files, segmentsOf, k + 1);
        return Failure(segments.error);
      }
      all := AppendLabelled(all, files[k], segments.value);
    }
    assert files[..|files|] == files;
    return Success(all);
  }

  /** A failure on a prefix of the files is the failure of all of them. */
  lemma {:induction false} CollectedFails(files: seq<GroupFile>, segmentsOf: int -> Result<seq<Segment>>, k: nat)
    requires k <= |files| && Collected(files[..k], segmentsOf).Failure?
    ensures Collected(files, segmentsOf) == Collected(files[..k], segmentsOf)
    decreases |files| - k
  {
    if k < |files| {
      CollectedStep(files, segmentsOf, k);
      CollectedFails(files, segmentsOf, k + 1);
    } else {
      assert files[..k] == files;
    }
  }

  /** Sorts the collected segments by start time in place; equal start times end up in no particular order. */
  method SortByStart(ms: seq<MergedSegment>) returns (sorted: seq<MergedSegment>)
    ensures SortedBy(sorted, StartsNoLater) && multiset(sorted) == multiset(ms)
  {
    var a := new MergedSegment[|ms|](i requires 0 <= i < |ms| => ms[i]);
    assert a[..] == ms;
    StartOrder();
    SortArray(a, StartsNoLater);
    sorted := a[..];
  }

  /** Fills a fresh array with the merged entries and their gaps. */
  method AnnotateMerged(ms: seq<MergedSegment>, threshold: real) returns (r: seq<SegmentWithGap>)
    ensures r == MergedView(ms, threshold)
  {
    var result := new SegmentWithGap[|ms|];
    for i := 0 to |ms|
      invariant forall k :: 0 <= k < i ==> result[k] == MergedView(ms, threshold)[k]
    {
      var gapAfter := None;
      if i < |ms| - 1 {
        var gap := ms[i + 1].segment.startTime - ms[i].segment.endTime;
        if gap >= threshold {
          gapAfter := Some(gap);
        }
      }
      result[i] := SegmentWithGap(ms[i].segment, gapAfter, Some(ms[i].speakerLabel), ms[i].audioFileId);
    }
    r := result[..];
  }

  lemma UnannotatedView(ms: seq<MergedSegment>, threshold: real)
    ensures Unannotated(MergedView(ms, threshold)) == ms
  {
  }

  /**
   * The merged timeline of a group: the group id is checked, the group's transcripts are
   * listed (an empty group is an error), their segments collected, sorted by start time and
   * annotated with the gaps of the sorted order.
   */
  method GetMergedSegments(groupId: int, files: Result<seq<GroupFile>>, segmentsOf: int -> Result<seq<Segment>>, threshold: real)
    returns (r: Result<seq<SegmentWithGap>>)
    ensures groupId < 1 ==> r == Failure("invalid group id")
    ensures groupId >= 1 && files.Failure? ==> r == Failure(files.error)
    ensures groupId >= 1 && files.Success? && files.value == [] ==> r == Failure("no files in group")
    ensures groupId >= 1 && files.Success? && files.value != [] && Collected(files.value, segmentsOf).Failure? ==>
      r == Failure(Collected(files.value, segmentsOf).error)
    ensures groupId >= 1 && files.Success? && files.value != [] && Collected(files.value, segmentsOf).Success? ==>
      && r.Success?
      && SortedBy(Unannotated(r.value), StartsNoLater)
      && multiset(Unannotated(r.value)) == multiset(Collected(files.value, segmentsOf).value)
      && r.value == MergedView(Unannotated(r.value), threshold)
  {
    if groupId < 1 {
      return Failure("invalid group id");
    }
    if files.Failure? {
      return Failure(files.error);
    }
    if files.value == [] {
      return Failure("no files in group");
    }
    var collected := CollectSegments(files.value, segmentsOf);
    if collected.Failure? {
      return Failure(collected.error);
    }
    var sorted := SortByStart(collected.value);
    var view := AnnotateMerged(sorted, threshold);
    UnannotatedView(sorted, threshold);
    return Success(view);
  }

  // ---------------------------------------------------------------------------
  // Uploads and edits
  // ---------------------------------------------------------------------------

  /** The largest accepted transcript: 50 MiB. */
  const MaxCorpusSize: int := 50 * 1024 * 1024

  /** A segment of the uploaded WhisperX output. */
  datatype WhisperSegment = WhisperSegment(start: real, end: real, text: string, speaker: Option<string>)

  datatype CorpusFileInput = CorpusFileInput(
    projectId: int,
    audioFileId: Option<int>,
    name: string,
    originalFilename: string,
    filePath: string,
    fileSize: int,
    segmentCount: int)

  datatype SegmentInput = SegmentInput(
    corpusFileId: int,
    segmentIndex: int,
    startTime: real,
    endTime: real,
    text: string,
    speaker: Option<string>)

  /** What a successful upload has stored: the file record, the id the repository gave it, and its segments under that id. */
  datatype UploadPlan = UploadPlan(file: CorpusFileInput, fileId: int, segments: seq<SegmentInput>)

  /** The name ends in ".json" once lower-cased. */
  predicate IsJsonName(filename: string)
  {
    HasSuffix(MapChars(filename, LowerForAscii), ".json")
  }

  /** The upload passes the service's own checks: project id, ".json" name, size, decodable JSON, at least one segment. */
  predicate UploadAccepted(projectId: int, file: UploadedFile, decoded: Result<seq<WhisperSegment>>)
  {
    projectId >= 1 && IsJsonName(file.filename) && file.size <= MaxCorpusSize && decoded.Success? && decoded.value != []
  }

  /**
   * The record of an accepted transcript: stored under "<project id>_<timestamp><extension>"
   * in the corpus directory and named by the uploaded name without its extension.
   */
  function FileRecord(projectId: int, audioFileId: Option<int>, file: UploadedFile, segmentCount: int,
                      timestamp: int, uploadPath: string): (rec: CorpusFileInput)
    ensures rec.projectId == projectId && rec.audioFileId == audioFileId
    ensures rec.name + FileExt(file.filename) == file.filename && rec.originalFilename == file.filename
    ensures rec.fileSize == file.size && rec.segmentCount == segmentCount
    ensures rec.filePath == JoinPath(JoinPath(uploadPath, "corpus"), StoredName(projectId, timestamp, file.filename))
  {
    var filePath := JoinPath(JoinPath(uploadPath, "corpus"), StoredName(projectId, timestamp, file.filename));
    CorpusFileInput(projectId, audioFileId, BaseName(file.filename), file.filename, filePath, file.size, segmentCount)
  }

  /** The batch of segment records: one per uploaded segment, numbered from 0 in upload order. */
  function Numbered(corpusFileId: int, segs: seq<WhisperSegment>): (r: seq<SegmentInput>)
    ensures |r| == |segs|
    ensures forall i :: 0 <= i < |segs| ==> r[i].corpusFileId == corpusFileId && r[i].segmentIndex == i
    ensures forall i :: 0 <= i < |segs| ==>
      r[i].startTime == segs[i].start && r[i].endTime == segs[i].end && r[i].text == segs[i].text && r[i].speaker == segs[i].speaker
  {
    seq(|segs|, i requires 0 <= i < |segs| => SegmentInput(corpusFileId, i, segs[i].start, segs[i].end, segs[i].text, segs[i].speaker))
  }

  /** Numbers the segments from 0 in upload order, as the service fills its batch slice. */
  method SegmentInputs(corpusFileId: int, segs: seq<WhisperSegment>) returns (r: seq<SegmentInput>)
    ensures r == Numbered(corpusFileId, segs)
  {
    var inputs := new SegmentInput[|segs|];
    for i := 0 to |segs|
      invariant forall k :: 0 <= k < i ==>
        inputs[k] == SegmentInput(corpusFileId, k, segs[k].start, segs[k].end, segs[k].text, segs[k].speaker)
    {
      inputs[i] := SegmentInput(corpusFileId, i, segs[i].start, segs[i].end, segs[i].text, segs[i].speaker);
    }
    r := inputs[..];
  }

  /**
   * A transcript upload: the checks in order (the project id, the ".json" name in any case,
   * the size, the JSON itself, whose decoding is a parameter, a non-empty segment list), then
   * the record is created and the segments are created in one batch under its id. The
   * repository's answers to the two creations are parameters; a failure of either is wrapped
   * (the record is then removed again, which the result does not show).
   */
  method Upload(projectId: int, audioFileId: Option<int>, file: UploadedFile, decoded: Result<seq<WhisperSegment>>,
                timestamp: int, uploadPath: string,
                createFile: CorpusFileInput -> Result<int>, createSegments: seq<SegmentInput> -> Outcome)
    returns (r: Result<UploadPlan>)
    ensures projectId < 1 ==> r == Failure("invalid project id")
    ensures projectId >= 1 && !IsJsonName(file.filename) ==> r == Failure("invalid file type: only JSON files are allowed")
    ensures projectId >= 1 && IsJsonName(file.filename) && file.size > MaxCorpusSize ==>
      r == Failure("file too large: maximum size is 50MB")
    ensures projectId >= 1 && IsJsonName(file.filename) && file.size <= MaxCorpusSize && decoded.Failure? ==>
      r == Failure("invalid JSON format: " + decoded.error)
    ensures projectId >= 1 && IsJsonName(file.filename) && file.size <= MaxCorpusSize && decoded.Success? && decoded.value == [] ==>
      r == Failure("no segments found in JSON file")
    ensures UploadAccepted(projectId, file, decoded) ==>
      var rec := FileRecord(projectId, audioFileId, file, |decoded.value|, timestamp, uploadPath);
      match createFile(rec)
      case Failure(e) => r == Failure("failed to create corpus file record: " + e)
      case Success(id) =>
        match createSegments(Numbered(id, decoded.value))
        case Fail(e) => r == Failure("failed to create segments: " + e)
        case Pass => r == Success(UploadPlan(rec, id, Numbered(id, decoded.value)))
    ensures r.Success? <==>
      && UploadAccepted(projectId, file, decoded)
      && var rec := FileRecord(projectId, audioFileId, file, |decoded.value|, timestamp, uploadPath);
         createFile(rec).Success? && createSegments(Numbered(createFile(rec).value, decoded.value)).Pass?
  {
    if projectId < 1 {
      return Failure("invalid project id");
    }
    if !IsJsonName(file.filename) {
      return Failure("invalid file type: only JSON files are allowed");
    }
    if file.size > MaxCorpusSize {
      return Failure("file too large: maximum size is 50MB");
    }
    if decoded.Failure? {
      return Failure("invalid JSON format: " + decoded.error);
    }
    var segments := decoded.value;
    if |segments| == 0 {
      return Failure("no segments found in JSON file");
    }
    var record := FileRecord(projectId, audioFileId, file, |segments|, timestamp, uploadPath);
    var created := createFile(record);
    if created.Failure? {
      return Failure("failed to create corpus file record: " + created.error);
    }
    var inputs := SegmentInputs(created.value, segments);
    var batch := createSegments(inputs);
    if batch.Fail? {
      return Failure("failed to create segments: " + batch.error);
    }
    return Success(UploadPlan(record, created.value, inputs));
  }

  /** The id check in front of a repository read: an id below 1 is refused with `message`. */
  function CheckedRead<T>(id: int, message: string, answer: Result<T>): (r: Result<T>)
    ensures r.Success? ==> id >= 1 && r == answer
    ensures id < 1 ==> r == Failure(message)
    ensures id >= 1 ==> r == answer
  {
    if id < 1 then Failure(message) else answer
  }

  /** `ListFilesByProjectID`. */
  function ListFilesByProjectId<T>(projectId: int, listed: Result<T>): (r: Result<T>)
    ensures projectId < 1 ==> r == Failure("invalid project id")
    ensures projectId >= 1 ==> r == listed
  {
    CheckedRead(projectId, "invalid project id", listed)
  }

  /** `GetFileByID`. */
  function GetFileById<T>(id: int, found: Result<T>): (r: Result<T>)
    ensures id < 1 ==> r == Failure("invalid corpus file id")
    ensures id >= 1 ==> r == found
  {
    CheckedRead(id, "invalid corpus file id", found)
  }

  /** `GetSegmentsByCorpusFileID`. */
  function GetSegmentsByCorpusFileId<T>(corpusFileId: int, listed: Result<T>): (r: Result<T>)
    ensures corpusFileId < 1 ==> r == Failure("invalid corpus file id")
    ensures corpusFileId >= 1 ==> r == listed
  {
    CheckedRead(corpusFileId, "invalid corpus file id", listed)
  }

  /** `GetGroupByID`. */
  function GetGroupById<T>(id: int, found: Result<T>): (r: Result<T>)
    ensures id < 1 ==> r == Failure("invalid group id")
    ensures id >= 1 ==> r == found
  {
    CheckedRead(id, "invalid group id", found)
  }

  /** `ListGroupsByProjectID`. */
  function ListGroupsByProjectId<T>(projectId: int, listed: Result<T>): (r: Result<T>)
    ensures projectId < 1 ==> r == Failure("invalid project id")
    ensures projectId >= 1 ==> r == listed
  {
    CheckedRead(projectId, "invalid project id", listed)
  }

  /** `GetGroupFiles`. */
  function GetGroupFiles<T>(groupId: int, listed: Result<T>): (r: Result<T>)
    ensures groupId < 1 ==> r == Failure("invalid group id")
    ensures groupId >= 1 ==> r == listed
  {
    CheckedRead(groupId, "invalid group id", listed)
  }

  /**
   * Deleting a transcript: the id is checked, the record looked up, then deleted (its
   * segments go with it); a failure to remove the stored copy afterwards is only logged.
   */
  function DeleteFile(id: int, lookup: Outcome, deletion: Outcome): (r: Outcome)
    ensures r.Pass? <==> id >= 1 && lookup.Pass? && deletion.Pass?
    ensures id < 1 ==> r == Fail("invalid corpus file id")
    ensures id >= 1 && lookup.Fail? ==> r == lookup
    ensures id >= 1 && lookup.Pass? ==> r == deletion
  {
    if id < 1 then Fail("invalid corpus file id")
    else if lookup.Fail? then lookup
    else deletion
  }

  /** Editing a segment's text: the id must be positive and the text must not be only white space. */
  function UpdateSegmentText(segmentId: int, text: string, updated: Outcome): (r: Outcome)
    ensures segmentId < 1 ==> r == Fail("invalid segment id")
    ensures segmentId >= 1 && (forall i :: 0 <= i < |text| ==> IsGoSpace(text[i])) ==>
      r == Fail("segment text cannot be empty")
    ensures segmentId >= 1 && (exists i :: 0 <= i < |text| && !IsGoSpace(text[i])) ==> r == updated
  {
    GoTrimSpaceEmpty(text);
    if segmentId < 1 then Fail("invalid segment id")
    else if GoTrimSpace(text) == "" then Fail("segment text cannot be empty")
    else updated
  }

  /** The first association of a file with the group that fails, from position `k` on, or none. */
  function AssociateFrom(fileIds: seq<int>, labels: seq<string>, associate: (int, string) -> Outcome, k: nat): Outcome
    requires |fileIds| == |labels| && k <= |fileIds|
    decreases |fileIds| - k
  {
    if k == |fileIds| then Pass
    else
      match associate(fileIds[k], labels[k])
      case Fail(e) => Fail("failed to associate file " + IntToDecimal(fileIds[k]) + ": " + e)
      case Pass => AssociateFrom(fileIds, labels, associate, k + 1)
  }

  /**
   * Creating a group: the project id, a name that is not only white space, and as many
   * labels as files; then the group is created (its id is the repository's answer) and each
   * file in turn is given the group and its label, stopping at the first failure.
   */
  method CreateGroup(projectId: int, name: string, fileIds: seq<int>, speakerLabels: seq<string>,
                     created: Result<int>, associate: (int, string) -> Outcome)
    returns (r: Result<int>)
    ensures projectId < 1 ==> r == Failure("invalid project id")
    ensures projectId >= 1 && (forall i :: 0 <= i < |name| ==> IsGoSpace(name[i])) ==> r == Failure("group name cannot be empty")
    ensures projectId >= 1 && (exists i :: 0 <= i < |name| && !IsGoSpace(name[i])) && |fileIds| != |speakerLabels| ==>
      r == Failure("file IDs and speaker labels must have the same length")
    ensures projectId >= 1 && (exists i :: 0 <= i < |name| && !IsGoSpace(name[i])) && |fileIds| == |speakerLabels| ==>
      r == match created
           case Failure(e) => Failure(e)
           case Success(groupId) =>
             match AssociateFrom(fileIds, speakerLabels, associate, 0)
             case Fail(e) => Failure(e)
             case Pass => Success(groupId)
  {
    GoTrimSpaceEmpty(name);
    if projectId < 1 {
      return Failure("invalid project id");
    }
    if GoTrimSpace(name) == "" {
      return Failure("group name cannot be empty");
    }
    if |fileIds| != |speakerLabels| {
      return Failure("file IDs and speaker labels must have the same length");
    }
    if created.Failure? {
      return Failure(created.error);
    }
    for i := 0 to |fileIds|
      invariant AssociateFrom(fileIds, speakerLabels, associate, 0) == AssociateFrom(fileIds, speakerLabels, associate, i)
    {
      var speakerLabel := speakerLabels[i];
      var outcome := associate(fileIds[i], speakerLabel);
      if outcome.Fail? {
        return Failure("failed to associate file " + IntToDecimal(fileIds[i]) + ": " + outcome.error);
      }
    }
    return Success(created.value);
  }

  // ---------------------------------------------------------------------------
  // Properties
  // ---------------------------------------------------------------------------

  /**
   * A pause is reported only after a segment that has a successor, exactly when the next
   * start lies at least `threshold` after this end, and it is that difference; raising the
   * threshold only drops pauses.
   */
  lemma GapMeaning(segs: seq<Segment>, i: nat, threshold: real, higher: real)
    requires i < |segs| && threshold <= higher
    ensures GapAfter(segs, i, threshold).Some? <==>
      i + 1 < |segs| && segs[i + 1].startTime - segs[i].endTime >= threshold
    ensures GapAfter(segs, i, threshold).Some? ==>
      GapAfter(segs, i, threshold).value == segs[i + 1].startTime - segs[i].endTime >= threshold
    ensures i == |segs| - 1 ==> GapAfter(segs, i, threshold) == None
    ensures GapAfter(segs, i, higher).Some? ==> GapAfter(segs, i, threshold) == GapAfter(segs, i, higher)
  {
  }

  /** One entry per segment, in the stored order, each carrying its own segment. */
  lemma FileViewMeaning(segs: seq<Segment>, threshold: real, i: nat)
    requires i < |segs|
    ensures FileView(segs, threshold)[i].segment == segs[i]
    ensures FileView(segs, threshold)[i].gapAfter == GapAfter(segs, i, threshold)
    ensures FileView(segs, threshold)[i].speakerLabel == None
  {
  }

  /** `m` is a segment of file `j`, with that file's label and audio. */
  predicate FromFile(files: seq<GroupFile>, segmentsOf: int -> Result<seq<Segment>>, m: MergedSegment, j: nat)
    requires j < |files|
  {
    && m.speakerLabel == LabelOf(files[j])
    && m.audioFileId == files[j].audioFileId
    && segmentsOf(files[j].id).Success?
    && m.segment in segmentsOf(files[j].id).value
  }

  predicate FromSomeFile(files: seq<GroupFile>, segmentsOf: int -> Result<seq<Segment>>, m: MergedSegment)
  {
    exists j :: 0 <= j < |files| && FromFile(files, segmentsOf, m, j)
  }

  /**
   * Collecting succeeds exactly when every listing does; then every segment of every file is
   * there, labelled with its file's label ("Unknown" when the file has none) and audio, and
   * nothing else is.
   */
  lemma {:induction false} CollectedMeaning(files: seq<GroupFile>, segmentsOf: int -> Result<seq<Segment>>)
    ensures Collected(files, segmentsOf).Success? <==> forall j :: 0 <= j < |files| ==> segmentsOf(files[j].id).Success?
    ensures Collected(files, segmentsOf).Success? ==>
      var c := Collected(files, segmentsOf).value;
      && (forall j, k :: 0 <= j < |files| && 0 <= k < |segmentsOf(files[j].id).value| ==>
            MergedSegment(segmentsOf(files[j].id).value[k], LabelOf(files[j]), files[j].audioFileId) in c)
      && (forall m :: m in c ==> FromSomeFile(files, segmentsOf, m))
    decreases |files|
  {
    if files != [] {
      var n := |files| - 1;
      var init := files[..n];
      CollectedMeaning(init, segmentsOf);
      assert forall j :: 0 <= j < n ==> init[j] == files[j];
      if Collected(files, segmentsOf).Success? {
        var prefix := Collected(init, segmentsOf).value;
        var segs := segmentsOf(files[n].id).value;
        var c := Collected(files, segmentsOf).value;
        assert c == prefix + Labelled(files[n], segs);
        forall j, k | 0 <= j < |files| && 0 <= k < |segmentsOf(files[j].id).value|
          ensures MergedSegment(segmentsOf(files[j].id).value[k], LabelOf(files[j]), files[j].audioFileId) in c
        {
          if j == n {
            assert Labelled(files[n], segs)[k] == MergedSegment(segs[k], LabelOf(files[n]), files[n].audioFileId);
          }
        }
        forall m | m in c
          ensures FromSomeFile(files, segmentsOf, m)
        {
          if m in prefix {
            var j :| 0 <= j < n && FromFile(init, segmentsOf, m, j);
            assert FromFile(files, segmentsOf, m, j);
          } else {
            var k :| 0 <= k < |segs| && Labelled(files[n], segs)[k] == m;
            assert m.segment == segs[k];
            assert FromFile(files, segmentsOf, m, n);
          }
        }
      }
    }
  }

  /** The number of segments the merged timeline holds: the sum over the files. */
  function TotalSegments(files: seq<GroupFile>, segmentsOf: int -> Result<seq<Segment>>): nat
  {
    if files == [] then 0
    else TotalSegments(files[..|files| - 1], segmentsOf) + (match segmentsOf(files[|files| - 1].id) case Success(segs) => |segs| case Failure(_) => 0)
  }

  /** Each segment of each file appears once: the timeline has exactly as many entries as the files have segments. */
  lemma {:induction false} CollectedCount(files: seq<GroupFile>, segmentsOf: int -> Result<seq<Segment>>)
    requires Collected(files, segmentsOf).Success?
    ensures |Collected(files, segmentsOf).value| == TotalSegments(files, segmentsOf)
    decreases |files|
  {
    if files != [] {
      CollectedCount(files[..|files| - 1], segmentsOf);
    }
  }

  /** A failing collection reports the error of the first file whose listing fails. */
  lemma {:induction false} CollectedFirstError(files: seq<GroupFile>, segmentsOf: int -> Result<seq<Segment>>, j: nat)
    requires j < |files| && segmentsOf(files[j].id).Failure?
    requires forall i :: 0 <= i < j ==> segmentsOf(files[i].id).Success?
    ensures Collected(files, segmentsOf) == Failure(segmentsOf(files[j].id).error)
  {
    CollectedMeaning(files[..j], segmentsOf);
    assert forall i :: 0 <= i < j ==> files[..j][i] == files[i];
    CollectedStep(files, segmentsOf, j);
    CollectedFails(files, segmentsOf, j + 1);
  }

  /**
   * In a merged timeline the start times never decrease, every entry carries a speaker label,
   * and a pause after entry i is measured to entry i + 1 of the sorted order.
   */
  lemma MergedTimeline(ms: seq<MergedSegment>, threshold: real, i: nat, j: nat)
    requires SortedBy(ms, StartsNoLater)
    requires i < j < |ms|
    ensures MergedView(ms, threshold)[i].segment.startTime <= MergedView(ms, threshold)[j].segment.startTime
    ensures MergedView(ms, threshold)[i].speakerLabel == Some(ms[i].speakerLabel)
    ensures MergedView(ms, threshold)[i].gapAfter.Some? ==>
      MergedView(ms, threshold)[i].gapAfter.value == ms[i + 1].segment.startTime - ms[i].segment.endTime >= threshold
  {
    assert StartsNoLater(ms[i], ms[j]);
  }

  /**
   * A ".json" name in any letter case is accepted, and then its extension is those five
   * characters: the record name is the file name without them.
   */
  lemma JsonNameMeaning(filename: string)
    requires IsJsonName(filename)
    ensures FileExt(filename) == filename[|filename| - 5..]
    ensures BaseName(filename) == filename[..|filename| - 5]
  {
    JsonExt(filename);
    var b := BaseName(filename);
    var e := filename[|filename| - 5..];
    assert b + e == filename;
    assert b == (b + e)[..|b|];
  }

  lemma JsonExt(filename: string)
    requires IsJsonName(filename)
    ensures FileExt(filename) == filename[|filename| - 5..]
  {
    JsonTail(filename);
    ExtOfTail(filename, 5);
  }

  /** The five characters that lower-case to ".json" are a '.' and four letters. */
  lemma JsonTail(filename: string)
    requires IsJsonName(filename)
    ensures var e := filename[|filename| - 5..];
      e[0] == '.' && forall i :: 1 <= i < |e| ==> e[i] != '.' && e[i] != '/'
  {
    var lower := MapChars(filename, LowerForAscii);
    var n := |filename|;
    var e := filename[n - 5..];
    var suffix := lower[n - 5..];
    assert suffix == ".json";
    forall i | 0 <= i < 5
      ensures LowerForAscii(e[i]) == suffix[i]
    {
      assert suffix[i] == lower[n - 5 + i];
    }
    LowerToDot(e[0], suffix[0]);
    forall i | 1 <= i < 5
      ensures e[i] != '.' && e[i] != '/'
    {
      LowerToLetter(e[i], suffix[i]);
    }
  }

  lemma LowerToDot(c: char, d: char)
    requires LowerForAscii(c) == d && d == '.'
    ensures c == '.'
  {
  }

  lemma LowerToLetter(c: char, d: char)
    requires LowerForAscii(c) == d && 'a' <= d <= 'z'
    ensures c != '.' && c != '/'
  {
  }

  lemma JsonCaseExample(base: string, filename: string)
    requires filename == base + ".JSON"
    ensures IsJsonName(filename) && BaseName(filename) == base
  {
    var lower := MapChars(filename, LowerForAscii);
    assert lower[|filename| - 5..] == ".json";
    JsonNameMeaning(filename);
    assert filename[..|filename| - 5] == base;
  }

  /**
   * An id below 1 never reaches the repository: the answer is the same whatever the
   * repository would have said, and a valid id passes the repository's answer through.
   */
  lemma CheckedReadIgnoresRepository<T>(id: int, message: string, a: Result<T>, b: Result<T>)
    ensures id < 1 ==> CheckedRead(id, message, a) == CheckedRead(id, message, b)
    ensures id >= 1 ==> (CheckedRead(id, message, a) == CheckedRead(id, message, b) <==> a == b)
  {
  }
}
