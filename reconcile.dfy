/** The reconciler: `main` splits the two relative-path indexes into files
    unique to each directory and common files, `report_comparisons` checks
    the common files' checksums, and `report_unique_files` lists the unique
    files with a best-effort checksum. */
module Reconcile {
  import opened Common
  import opened Digest
  import opened PathIndex

  /** The three key sets of `main`: `unique_files1`, `unique_files2`, `common_files`. */
  datatype Partition = Partition(unique1: set<Path>, unique2: set<Path>, common: set<Path>)

  /** Set difference both ways and intersection of the two indexes' keys.
      The three parts are pairwise disjoint, the first index's keys are
      exactly its unique part plus the common part (likewise the second),
      and these facts alone determine the three parts. */
  function Split(rel1: map<Path, Path>, rel2: map<Path, Path>): (part: Partition)
    ensures part.unique1 !! part.unique2 && part.unique1 !! part.common && part.unique2 !! part.common
    ensures part.unique1 + part.common == rel1.Keys && part.unique2 + part.common == rel2.Keys
    ensures part.unique1 + part.unique2 + part.common == rel1.Keys + rel2.Keys
  {
    Partition(rel1.Keys - rel2.Keys, rel2.Keys - rel1.Keys, rel1.Keys * rel2.Keys)
  }

  /** Every key of the first index is either unique to it or common, so
      the two counts add up to its size; likewise for the second. */
  lemma SplitSizes(rel1: map<Path, Path>, rel2: map<Path, Path>)
    ensures |Split(rel1, rel2).unique1| + |Split(rel1, rel2).common| == |rel1|
    ensures |Split(rel1, rel2).unique2| + |Split(rel1, rel2).common| == |rel2|
  {
  }

  /** Any three disjoint sets that rebuild both key sets are the ones Split
      returns: the partition is unique. */
  lemma SplitUnique(rel1: map<Path, Path>, rel2: map<Path, Path>, other: Partition)
    requires other.unique1 !! other.unique2 && other.unique1 !! other.common && other.unique2 !! other.common
    requires other.unique1 + other.common == rel1.Keys && other.unique2 + other.common == rel2.Keys
    ensures other == Split(rel1, rel2)
  {
  }

  /** Swapping the two directories swaps the unique parts and keeps the
      common part. */
  lemma SplitSwap(rel1: map<Path, Path>, rel2: map<Path, Path>)
    ensures Split(rel2, rel1) == Partition(Split(rel1, rel2).unique2, Split(rel1, rel2).unique1, Split(rel1, rel2).common)
  {
  }

  /** What `report_comparisons` does with one common file: append it to
      `mismatches`, to nothing, or to `errors`. */
  datatype Outcome = Match | Mismatch | Error

  /** The branch `report_comparisons` takes for the checksums of the two
      copies. Both checksums present and different: mismatch. Equal,
      including both absent: match. Exactly one absent: error. */
  function Classify(sum1: Option<Checksum>, sum2: Option<Checksum>): (o: Outcome)
    ensures o == Mismatch <==> sum1.Some? && sum2.Some? && sum1.value != sum2.value
    ensures o == Match <==> sum1 == sum2
    ensures o == Error <==> sum1.Some? != sum2.Some?
  {
    if sum1.Some? && sum2.Some? && sum1 != sum2 then Mismatch
    else if sum1 == sum2 then Match
    else Error
  }

  /** The verdict does not depend on which copy is first. */
  lemma ClassifySymmetric(sum1: Option<Checksum>, sum2: Option<Checksum>)
    ensures Classify(sum1, sum2) == Classify(sum2, sum1)
  {
  }

  /** The outcome for common file `name`, each copy hashed by `calculate_md5`. */
  function CommonOutcome(name: Path, files1: map<Path, Path>, files2: map<Path, Path>,
                         fs: FileSystem, md5: seq<byte> -> Checksum): Outcome
    requires name in files1 && name in files2
  {
    Classify(Md5Of(fs, files1[name], md5), Md5Of(fs, files2[name], md5))
  }

  /** The lists `report_comparisons` builds: each holds no name twice, and a
      name is in `mismatches` (resp. `errors`) exactly when it is common and
      its outcome is a mismatch (resp. an error). Order is not specified:
      the source iterates over a set. */
  ghost predicate ComparisonsReported(errors: seq<Path>, mismatches: seq<Path>, common: set<Path>,
                                files1: map<Path, Path>, files2: map<Path, Path>,
                                fs: FileSystem, md5: seq<byte> -> Checksum)
    requires common <= files1.Keys && common <= files2.Keys
  {
    && Distinct(errors) && Distinct(mismatches)
    && (forall f :: f in mismatches <==> f in common && CommonOutcome(f, files1, files2, fs, md5) == Mismatch)
    && (forall f :: f in errors <==> f in common && CommonOutcome(f, files1, files2, fs, md5) == Error)
  }

  /** `report_comparisons(common_files, files1_dict, files2_dict)`, returning
      the two lists it hands to `print_results`. */
  method ReportComparisons(common: set<Path>, files1: map<Path, Path>, files2: map<Path, Path>,
                           fs: FileSystem, md5: seq<byte> -> Checksum)
    returns (errors: seq<Path>, mismatches: seq<Path>)
    requires common <= files1.Keys && common <= files2.Keys
    ensures ComparisonsReported(errors, mismatches, common, files1, files2, fs, md5)
  {
    errors, mismatches := [], [];
    var todo := common;
    while todo != {}
      invariant todo <= common
      invariant Distinct(errors) && Distinct(mismatches)
      invariant forall f :: f in mismatches <==> f in common - todo && CommonOutcome(f, files1, files2, fs, md5) == Mismatch
      invariant forall f :: f in errors <==> f in common - todo && CommonOutcome(f, files1, files2, fs, md5) == Error
      decreases todo
    {
      var name :| name in todo;
      var path1, path2 := files1[name], files2[name];
      var sum1 := CalculateMd5(fs, path1, md5);
      var sum2 := CalculateMd5(fs, path2, md5);
      assert Classify(sum1, sum2) == CommonOutcome(name, files1, files2, fs, md5);
      if sum1.Some? && sum2.Some? && sum1 != sum2 {
        DistinctAppend(mismatches, name);
        mismatches := mismatches + [name];
      } else if sum1 == sum2 {
      } else {
        DistinctAppend(errors, name);
        errors := errors + [name];
      }
      todo := todo - {name};
    }
  }

  /** Swapping the two directories leaves the reported lists valid: the
      verdicts do not depend on which copy is hashed first. */
  lemma ComparisonsReportedSwap(errors: seq<Path>, mismatches: seq<Path>, common: set<Path>,
                                files1: map<Path, Path>, files2: map<Path, Path>,
                                fs: FileSystem, md5: seq<byte> -> Checksum)
    requires common <= files1.Keys && common <= files2.Keys
    ensures ComparisonsReported(errors, mismatches, common, files1, files2, fs, md5)
        <==> ComparisonsReported(errors, mismatches, common, files2, files1, fs, md5)
  {
  }

  /** No common file is in both lists, and together they hold at most as
      many names as there are common files. */
  lemma ReportedCountsBounded(errors: seq<Path>, mismatches: seq<Path>, common: set<Path>,
                              files1: map<Path, Path>, files2: map<Path, Path>,
                              fs: FileSystem, md5: seq<byte> -> Checksum)
    requires common <= files1.Keys && common <= files2.Keys
    requires ComparisonsReported(errors, mismatches, common, files1, files2, fs, md5)
    ensures forall f :: f in errors ==> f !in mismatches
    ensures |errors| + |mismatches| <= |common|
  {
    var errorSet, mismatchSet := set f | f in errors, set f | f in mismatches;
    DistinctCard(errors);
    DistinctCard(mismatches);
    assert errorSet !! mismatchSet;
    assert errorSet + mismatchSet <= common;
    assert |errorSet + mismatchSet| == |errorSet| + |mismatchSet|;
    assert common == (errorSet + mismatchSet) + (common - (errorSet + mismatchSet));
  }

  /** When neither copy of a common file can be hashed, the file is in
      neither list: `None == None` takes the match branch. */
  lemma BothUnreadableCountsAsMatch(errors: seq<Path>, mismatches: seq<Path>, common: set<Path>,
                                    files1: map<Path, Path>, files2: map<Path, Path>,
                                    fs: FileSystem, md5: seq<byte> -> Checksum, name: Path)
    requires common <= files1.Keys && common <= files2.Keys
    requires ComparisonsReported(errors, mismatches, common, files1, files2, fs, md5)
    requires name in common && Md5Of(fs, files1[name], md5).None? && Md5Of(fs, files2[name], md5).None?
    ensures name !in errors && name !in mismatches
  {
  }

  /** When exactly one copy of a common file can be hashed, the file is
      reported as an error and never as a mismatch. */
  lemma OneUnreadableIsError(errors: seq<Path>, mismatches: seq<Path>, common: set<Path>,
                             files1: map<Path, Path>, files2: map<Path, Path>,
                             fs: FileSystem, md5: seq<byte> -> Checksum, name: Path)
    requires common <= files1.Keys && common <= files2.Keys
    requires ComparisonsReported(errors, mismatches, common, files1, files2, fs, md5)
    requires name in common && Md5Of(fs, files1[name], md5).Some? != Md5Of(fs, files2[name], md5).Some?
    ensures name in errors && name !in mismatches
  {
  }

  /** A common file whose copies both read and differ in content is a
      mismatch whenever the checksum tells the contents apart. */
  lemma DifferentContentIsMismatch(errors: seq<Path>, mismatches: seq<Path>, common: set<Path>,
                                   files1: map<Path, Path>, files2: map<Path, Path>,
                                   fs: FileSystem, md5: seq<byte> -> Checksum, name: Path)
    requires common <= files1.Keys && common <= files2.Keys
    requires ComparisonsReported(errors, mismatches, common, files1, files2, fs, md5)
    requires name in common
    requires Md5Of(fs, files1[name], md5).Some? && Md5Of(fs, files2[name], md5).Some?
    requires md5(fs[files1[name]].content) != md5(fs[files2[name]].content)
    ensures name in mismatches && name !in errors
  {
  }

  /** One line of `report_unique_files`: a unique name and its checksum, or
      `None` when it could not be computed. */
  datatype UniqueRecord = UniqueRecord(name: Path, checksum: Option<Checksum>)

  /** The names of a listing, in order. */
  function Names(listing: seq<UniqueRecord>): seq<Path> {
    seq(|listing|, i requires 0 <= i < |listing| => listing[i].name)
  }

  /** The listing `report_unique_files` prints: every unique name exactly
      once, each with the checksum `calculate_md5` gives its path. */
  ghost predicate UniquesReported(listing: seq<UniqueRecord>, unique: set<Path>, files: map<Path, Path>,
                            fs: FileSystem, md5: seq<byte> -> Checksum)
    requires unique <= files.Keys
  {
    && Distinct(Names(listing))
    && (forall f :: f in Names(listing) <==> f in unique)
    && (forall i | 0 <= i < |listing| :: listing[i].name in unique
          && listing[i].checksum == Md5Of(fs, files[listing[i].name], md5))
  }

  /** `report_unique_files(unique_files, files_dict, directory_name)`,
      returning the lines it prints. A failed checksum does not stop it. */
  method ReportUniqueFiles(unique: set<Path>, files: map<Path, Path>, fs: FileSystem, md5: seq<byte> -> Checksum)
    returns (listing: seq<UniqueRecord>)
    requires unique <= files.Keys
    ensures UniquesReported(listing, unique, files, fs, md5)
  {
    listing := [];
    var todo := unique;
    while todo != {}
      invariant todo <= unique
      invariant Distinct(Names(listing))
      invariant forall f :: f in Names(listing) <==> f in unique - todo
      invariant forall i | 0 <= i < |listing| :: listing[i].name in unique
                  && listing[i].checksum == Md5Of(fs, files[listing[i].name], md5)
      decreases todo
    {
      var name :| name in todo;
      var checksum := CalculateMd5(fs, files[name], md5);
      assert Names(listing + [UniqueRecord(name, checksum)]) == Names(listing) + [name];
      DistinctAppend(Names(listing), name);
      listing := listing + [UniqueRecord(name, checksum)];
      todo := todo - {name};
    }
  }

  /** Everything one run of `main` reports. */
  datatype Report = Report(errors: seq<Path>, mismatches: seq<Path>,
                           unique1: seq<UniqueRecord>, unique2: seq<UniqueRecord>)

  /** The set of walked paths, `set(get_all_file_paths(directory))`: it
      keeps every walked path, adds none, and loses nothing when the walk
      lists each file once. */
  function Walked(paths: seq<Path>): (files: set<Path>)
    ensures forall p :: p in files <==> p in paths
    ensures Distinct(paths) ==> |files| == |paths|
  {
    assert Distinct(paths) ==> |set p | p in paths| == |paths| by {
      if Distinct(paths) {
        DistinctCard(paths);
      }
    }
    set p | p in paths
  }

  /** `main(directory1, directory2)` on the paths the two walks produced and
      the filesystem as it is while hashing. */
  method CompareDirectories(dir1: Path, dir2: Path, walked1: seq<Path>, walked2: seq<Path>,
               fs: FileSystem, md5: seq<byte> -> Checksum)
    returns (report: Report)
    requires forall p | p in walked1 :: Under(dir1, p)
    requires forall p | p in walked2 :: Under(dir2, p)
    ensures var rel1, rel2 := RelIndex(dir1, Walked(walked1)), RelIndex(dir2, Walked(walked2));
            var part := Split(rel1, rel2);
            && ComparisonsReported(report.errors, report.mismatches, part.common, rel1, rel2, fs, md5)
            && UniquesReported(report.unique1, part.unique1, rel1, fs, md5)
            && UniquesReported(report.unique2, part.unique2, rel2, fs, md5)
  {
    var rel1 := RelIndex(dir1, Walked(walked1));
    var rel2 := RelIndex(dir2, Walked(walked2));
    var part := Split(rel1, rel2);
    var errors, mismatches := ReportComparisons(part.common, rel1, rel2, fs, md5);
    var unique1 := ReportUniqueFiles(part.unique1, rel1, fs, md5);
    var unique2 := ReportUniqueFiles(part.unique2, rel2, fs, md5);
    report := Report(errors, mismatches, unique1, unique2);
  }

  /** Two trees with the same relative paths, every copy readable and each
      pair byte-identical: nothing is unique and every common file matches,
      so both lists are empty. */
  lemma IdenticalTreesReportNothing(errors: seq<Path>, mismatches: seq<Path>,
                                    rel1: map<Path, Path>, rel2: map<Path, Path>,
                                    fs: FileSystem, md5: seq<byte> -> Checksum)
    requires rel1.Keys == rel2.Keys
    requires forall k | k in rel1 :: Md5Of(fs, rel1[k], md5).Some? && Md5Of(fs, rel2[k], md5).Some?
                                      && fs[rel1[k]].content == fs[rel2[k]].content
    requires ComparisonsReported(errors, mismatches, Split(rel1, rel2).common, rel1, rel2, fs, md5)
    ensures Split(rel1, rel2).unique1 == {} && Split(rel1, rel2).unique2 == {}
    ensures errors == [] && mismatches == []
  {
    forall f | f in Split(rel1, rel2).common
      ensures CommonOutcome(f, rel1, rel2, fs, md5) == Match
    {
      SameContentSameChecksum(fs, rel1[f], rel2[f], md5);
    }
    assert (set f | f in errors) == {} && (set f | f in mismatches) == {};
    DistinctCard(errors);
    DistinctCard(mismatches);
  }
}
