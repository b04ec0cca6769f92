/**
 * modules/subdomains.py: the mapping from a tool run to its captured output,
 * and the merger that unions the enumerators' files into one stripped,
 * lower-cased, de-duplicated, sorted subdomain list.
 */
module Subdomains {
  import opened Common
  import opened Text
  import opened Order

  /** `run_command`: the captured stdout on exit code 0, otherwise "". */
  function RunCommand(outcome: ProcessOutcome): (out: string)
    ensures outcome.Succeeded() ==> out == outcome.stdout
    ensures !outcome.Succeeded() ==> out == ""
  {
    match outcome
    case Exited(code, stdout, _) => if code == 0 then stdout else ""
    case TimedOut => ""
    case Raised => ""
  }

  /** The form a line is kept in: stripped, then lower-cased. */
  function Normalize(line: string): string
  {
    Lower(Strip(line))
  }

  /** A normalized line is kept when it is non-empty and not a `#` comment. */
  predicate IsEntry(n: string)
  {
    n != [] && n[0] != '#'
  }

  /** A line as the merger writes it. */
  ghost predicate WellFormed(n: string)
  {
    IsEntry(n) && Stripped(n) && IsLower(n)
  }

  /** What one read of `lines` adds to the set. */
  ghost function LineEntries(lines: seq<string>): set<string>
  {
    set l | l in lines && IsEntry(Normalize(l)) :: Normalize(l)
  }

  /** What the merger collects from `files`: every qualifying line of every file read. */
  ghost function Entries(files: seq<FileState>): set<string>
  {
    set k, l | 0 <= k < |files| && l in files[k].LinesSeen() && IsEntry(Normalize(l)) :: Normalize(l)
  }

  lemma EntriesStep(files: seq<FileState>, i: int)
    requires 0 <= i < |files|
    ensures Entries(files[..i + 1]) == Entries(files[..i]) + LineEntries(files[i].LinesSeen())
  {
    var pre, post := files[..i], files[..i + 1];
    forall x | x in Entries(post) ensures x in Entries(pre) + LineEntries(files[i].LinesSeen()) {
      var k, l :| 0 <= k < |post| && l in post[k].LinesSeen() && IsEntry(Normalize(l)) && x == Normalize(l);
      if k < i { assert pre[k] == post[k]; }
    }
    forall x | x in Entries(pre) ensures x in Entries(post) {
      var k, l :| 0 <= k < |pre| && l in pre[k].LinesSeen() && IsEntry(Normalize(l)) && x == Normalize(l);
      assert post[k] == pre[k];
    }
    forall x | x in LineEntries(files[i].LinesSeen()) ensures x in Entries(post) {
      var l :| l in files[i].LinesSeen() && IsEntry(Normalize(l)) && x == Normalize(l);
      assert post[i] == files[i];
    }
  }

  lemma LineEntriesStep(lines: seq<string>, j: int)
    requires 0 <= j < |lines|
    ensures LineEntries(lines[..j + 1]) == LineEntries(lines[..j]) +
      (if IsEntry(Normalize(lines[j])) then {Normalize(lines[j])} else {})
  {
    assert lines[..j + 1] == lines[..j] + [lines[j]];
  }

  /** Every collected entry is stripped, lower-case, non-empty and not a comment. */
  lemma EntriesWellFormed(files: seq<FileState>, x: string)
    requires x in Entries(files)
    ensures WellFormed(x)
  {
    var k, l :| 0 <= k < |files| && l in files[k].LinesSeen() && IsEntry(Normalize(l)) && x == Normalize(l);
    LowerOfStripped(Strip(l));
  }

  /** Every qualifying line of every file read is collected. */
  lemma EntriesComplete(files: seq<FileState>, k: int, l: string)
    requires 0 <= k < |files| && l in files[k].LinesSeen() && IsEntry(Normalize(l))
    ensures Normalize(l) in Entries(files)
  {
  }

  /** `out` is what the merger writes for `files`: sorted, and exactly the collected set. */
  ghost predicate IsMergeOf(files: seq<FileState>, out: seq<string>)
  {
    StrictlySorted(out) && forall x :: x in out <==> x in Entries(files)
  }

  /**
   * `deduplicate_subdomains`: read every existing file line by line into a
   * set, then write the set sorted, one entry per line. `writeOk` says whether
   * opening and writing the output file succeeds; when it does not, the
   * result is 0 and the content of the output file is not modelled.
   */
  method DeduplicateSubdomains(files: seq<FileState>, writeOk: bool)
    returns (written: Option<seq<string>>, total: nat)
    ensures writeOk ==> written.Some? && IsMergeOf(files, written.value)
    ensures writeOk ==> total == |written.value| == |Entries(files)|
    ensures !writeOk ==> written == None && total == 0
  {
    var subdomains: set<string> := {};
    var i := 0;
    while i < |files|
      invariant 0 <= i <= |files|
      invariant subdomains == Entries(files[..i])
    {
      var file := files[i];
      if file.Exists() {
        subdomains := ReadFile(subdomains, file.LinesSeen());
      }
      EntriesStep(files, i);
      i := i + 1;
    }
    assert files[..i] == files;
    assert subdomains == Entries(files);
    if writeOk {
      var sorted := SortSet(subdomains);
      written := Some(sorted);
      total := |subdomains|;
    } else {
      written := None;
      total := 0;
    }
  }

  /** The `for line in f` loop: adds the qualifying lines of one file to `subdomains`. */
  method ReadFile(subdomains: set<string>, lines: seq<string>) returns (r: set<string>)
    ensures r == subdomains + LineEntries(lines)
  {
    r := subdomains;
    var j := 0;
    while j < |lines|
      invariant 0 <= j <= |lines|
      invariant r == subdomains + LineEntries(lines[..j])
    {
      var subdomain := Normalize(lines[j]);
      if IsEntry(subdomain) {
        r := r + {subdomain};
      }
      LineEntriesStep(lines, j);
      j := j + 1;
    }
    assert lines[..j] == lines;
  }

  /** Re-merging the merged output on its own gives it back unchanged. */
  lemma MergeIdempotent(files: seq<FileState>, out: seq<string>, again: seq<string>)
    requires IsMergeOf(files, out)
    requires IsMergeOf([Readable(out)], again)
    ensures again == out
  {
    var single := [Readable(out)];
    assert single[0].LinesSeen() == out;
    forall x ensures x in again <==> x in out {
      if x in out {
        EntriesWellFormed(files, x);
        StripStripped(x);
        LowerOfLower(x);
        EntriesComplete(single, 0, x);
      }
      if x in again {
        var k, l :| 0 <= k < 1 && l in single[k].LinesSeen() && IsEntry(Normalize(l)) && x == Normalize(l);
        EntriesWellFormed(files, l);
        StripStripped(l);
        LowerOfLower(l);
      }
    }
    SortedUnique(again, out);
  }

  /** Files that all occur in `b`, missing ones aside, collect nothing `b` does not. */
  lemma EntriesSubset(a: seq<FileState>, b: seq<FileState>)
    requires forall f :: f in a && f.Exists() ==> f in b
    ensures Entries(a) <= Entries(b)
  {
    forall x | x in Entries(a) ensures x in Entries(b) {
      var k, l :| 0 <= k < |a| && l in a[k].LinesSeen() && IsEntry(Normalize(l)) && x == Normalize(l);
      assert a[k] in a;
      var k2 :| 0 <= k2 < |b| && b[k2] == a[k];
      EntriesComplete(b, k2, l);
    }
  }

  /** The merged output does not depend on the order in which the files are given. */
  lemma MergeOrderIndependent(f1: seq<FileState>, f2: seq<FileState>, o1: seq<string>, o2: seq<string>)
    requires multiset(f1) == multiset(f2)
    requires IsMergeOf(f1, o1) && IsMergeOf(f2, o2)
    ensures o1 == o2
  {
    forall f | f in f1 ensures f in f2 {
      assert f in multiset(f2);
    }
    forall f | f in f2 ensures f in f1 {
      assert f in multiset(f1);
    }
    EntriesSubset(f1, f2);
    EntriesSubset(f2, f1);
    SortedUnique(o1, o2);
  }

  /** A missing file changes nothing wherever it appears in the list. */
  lemma MergeSkipsMissing(files: seq<FileState>, k: int)
    requires 0 <= k < |files| && files[k] == Absent
    ensures Entries(files) == Entries(files[..k] + files[k + 1..])
  {
    var rest := files[..k] + files[k + 1..];
    forall f | f in files && f.Exists() ensures f in rest {
      var m :| 0 <= m < |files| && files[m] == f;
      if m < k {
        assert rest[m] == f;
      } else {
        assert rest[m - 1] == f;
      }
    }
    forall f | f in rest ensures f in files {
      var m :| 0 <= m < |rest| && rest[m] == f;
      if m < k {
        assert files[m] == f;
      } else {
        assert files[m + 1] == f;
      }
    }
    EntriesSubset(files, rest);
    EntriesSubset(rest, files);
  }
}
