/** The loop of the main window's transcript export (main.py:888-943):
    each video's file gets the least free name among the paths that
    existed before plus the files created so far, and receives the body
    its fetch yielded when the path can be opened.
 */
module ExportLoop {
  import opened Wrappers
  import opened Naming
  import opened Batch

  /** What a created file holds after the header: the transcript, a
      failure note quoting the fetched string, or the "no transcript"
      note. */
  datatype Body = Transcript(text: string) | Reported(text: string) | NoTranscript

  /** What became of one video: its file and body, or the path that could
      not be opened (nothing is created then). */
  datatype Entry =
    | Written(path: string, round: nat, body: Body)
    | OpenFailed(path: string, round: nat)

  /** What the loop needs to know about one video: the path its name asks
      for and the body that fetching its transcript yields. The fetch has no
      effect on anything else, so it is the same whenever it happens. */
  datatype Job = Job(original: string, body: Body)

  /** The relation between one video's job and its entry, given the paths
      taken before it. */
  predicate EntryFor(e: Entry, job: Job, canOpen: string -> bool, taken: set<string>) {
    && Chosen(job.original, e.round, e.path, taken)
    && (e.Written? <==> canOpen(e.path))
    && (e.Written? ==> e.body == job.body)
  }

  /** One round of the loop: find a free name, open it, and write the
      transcript or a failure note. */
  method ExportOne(job: Job, canOpen: string -> bool, taken: set<string>) returns (e: Entry)
    ensures EntryFor(e, job, canOpen, taken)
  {
    var path, round := UniquePath(job.original, taken);
    if canOpen(path) {
      e := Written(path, round, job.body);
    } else {
      e := OpenFailed(path, round);
    }
  }

  /** The file an entry created. */
  function WrittenFile(e: Entry): Option<string> {
    if e.Written? then Some(e.path) else None
  }

  /** An entry counted as extracted. */
  predicate Extracted(e: Entry) {
    e.Written? && e.body.Transcript?
  }

  function EntryRelation(canOpen: string -> bool): (Entry, Job, set<string>) -> bool {
    (e, job, taken) => EntryFor(e, job, canOpen, taken)
  }

  /** The loop over the selected videos. */
  method ExportAll(jobs: seq<Job>, canOpen: string -> bool, existing: set<string>)
    returns (entries: seq<Entry>, extracted: nat)
    ensures AllFor(entries, jobs, EntryRelation(canOpen), WrittenFile, existing)
    ensures extracted == Count(entries, Extracted)
  {
    entries := [];
    var taken := existing;
    extracted := 0;
    for i := 0 to |jobs|
      invariant |entries| == i
      invariant taken == existing + Created(entries, WrittenFile)
      invariant extracted == Count(entries, Extracted)
      invariant AllFor(entries, jobs[..i], EntryRelation(canOpen), WrittenFile, existing)
    {
      var e := ExportOne(jobs[i], canOpen, taken);
      assert (entries + [e])[..i] == entries;
      assert jobs[..i + 1][..i] == jobs[..i];
      entries := entries + [e];
      if e.Written? {
        taken := taken + {e.path};
      }
      if Extracted(e) {
        extracted := extracted + 1;
      }
    }
    assert jobs[..|jobs|] == jobs;
  }
}
