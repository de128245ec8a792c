/**
 The bounded patches of a pull-request diff (src/features/github/pr-diff.ts): each shown patch is cut to 400
 lines and 24000 characters, and all together to 160000.
 */
module PatchBudget {
  import opened Common
  import opened Utf16

  /** Characters are UTF-16 code units. */
  type Text = seq<unit>

  const LF: unit := 10

  const MAX_PATCH_LINES: nat := 400
  const MAX_PATCH_CHARS: nat := 24_000
  const MAX_TOTAL_PATCH_CHARS: nat := 160_000

  // ----- lines -----

  /** `split("\n")`. */
  function Split(s: Text): (lines: seq<Text>)
    ensures |lines| == LineFeeds(s) + 1
  {
    if s == [] then [[]]
    else if s[0] == LF then [[]] + Split(s[1..])
    else
      var rest := Split(s[1..]);
      [[s[0]] + rest[0]] + rest[1..]
  }

  function LineFeeds(s: Text): nat {
    if s == [] then 0 else (if s[0] == LF then 1 else 0) + LineFeeds(s[1..])
  }

  /** The longest prefix with fewer than `k` line feeds. */
  function Head(s: Text, k: nat): Text
    requires k > 0
  {
    if s == [] then []
    else if s[0] == LF then if k == 1 then [] else [LF] + Head(s[1..], k - 1)
    else [s[0]] + Head(s[1..], k)
  }

  /** Splitting, keeping `k` lines and joining them again gives that prefix. */
  lemma {:induction false} SplitSliceJoin(s: Text, k: nat)
    requires 0 < k <= |Split(s)|
    ensures Joined(Split(s)[..k], [LF]) == Head(s, k)
  {
    if s == [] {
      assert Split(s)[..k] == [[]];
    } else if s[0] == LF {
      assert Split(s)[..k][1..] == Split(s[1..])[..k - 1];
      if k > 1 {
        SplitSliceJoin(s[1..], k - 1);
      }
    } else {
      var rest := Split(s[1..]);
      SplitSliceJoin(s[1..], k);
      assert Split(s)[..k][1..] == rest[..k][1..] && rest[..k][0] == rest[0];
      assert [s[0]] + (rest[0] + [LF] + Joined(rest[..k][1..], [LF]))
             == [s[0]] + rest[0] + [LF] + Joined(rest[..k][1..], [LF]);
    }
  }

  lemma {:induction false} HeadIsPrefix(s: Text, k: nat)
    requires k > 0
    ensures Head(s, k) <= s && LineFeeds(Head(s, k)) < k
    ensures LineFeeds(s) < k ==> Head(s, k) == s
    ensures LineFeeds(s) >= k ==> |Head(s, k)| < |s|
  {
    if s != [] {
      if s[0] != LF {
        HeadIsPrefix(s[1..], k);
        assert Head(s, k)[1..] == Head(s[1..], k);
      } else if k > 1 {
        HeadIsPrefix(s[1..], k - 1);
        assert Head(s, k)[1..] == Head(s[1..], k - 1);
      }
    }
  }

  /** Every prefix with fewer than `k` line feeds is a prefix of it. */
  lemma {:induction false} HeadIsLongest(s: Text, k: nat, n: nat)
    requires k > 0 && n <= |s| && LineFeeds(s[..n]) < k
    ensures n <= |Head(s, k)|
  {
    if n > 0 {
      assert s[..n][1..] == s[1..][..n - 1];
      if s[0] != LF {
        HeadIsLongest(s[1..], k, n - 1);
      } else {
        HeadIsLongest(s[1..], k - 1, n - 1);
      }
    }
  }

  lemma {:induction false} FewerLineFeeds(s: Text, n: nat)
    requires n <= |s|
    ensures LineFeeds(s[..n]) <= LineFeeds(s)
  {
    if n > 0 {
      assert s[..n][1..] == s[1..][..n - 1];
      FewerLineFeeds(s[1..], n - 1);
    }
  }

  // ----- one patch -----

  datatype Bounded = Bounded(patch: Option<Text>, truncated: bool, unavailable: bool, used: nat)

  function Limit(remaining: nat): nat {
    if MAX_PATCH_CHARS < remaining then MAX_PATCH_CHARS else remaining
  }

  function BoundedPatch(patch: Option<Text>, remaining: nat): Bounded {
    if patch.None? || patch.value == [] then Bounded(None, false, true, 0)
    else
      var lines := Split(patch.value);
      var lineLimited := |lines| > MAX_PATCH_LINES;
      var boundedLines := if lineLimited then Joined(lines[..MAX_PATCH_LINES], [LF]) else patch.value;
      var charLimited := |boundedLines| > Limit(remaining);
      var bounded := if charLimited then boundedLines[..Limit(remaining)] else boundedLines;
      Bounded(Some(bounded), lineLimited || charLimited, false, |bounded|)
  }

  /** A text that may be shown. */
  predicate Fits(text: Text, remaining: nat) {
    LineFeeds(text) + 1 <= MAX_PATCH_LINES && |text| <= Limit(remaining)
  }

  /**
   What is shown of a patch is its longest prefix that fits, and no flag is set exactly when the patch is
   there and shown whole.
   */
  lemma ShownIsLongestPrefix(patch: Option<Text>, remaining: nat)
    ensures var b := BoundedPatch(patch, remaining);
      && (b.unavailable <==> patch.None? || patch.value == [])
      && (b.unavailable <==> b.patch.None?)
      && (b.patch.Some? ==>
            && b.patch.value <= patch.value && Fits(b.patch.value, remaining)
            && forall n: nat :: n <= |patch.value| && Fits(patch.value[..n], remaining) ==> n <= |b.patch.value|)
      && (!b.truncated && !b.unavailable <==> patch.Some? && patch.value != [] && b.patch == patch)
      && b.used == (if b.patch.Some? then |b.patch.value| else 0) && b.used <= remaining
  {
    if patch.Some? && patch.value != [] {
      var s := patch.value;
      var head := Head(s, MAX_PATCH_LINES);
      HeadIsPrefix(s, MAX_PATCH_LINES);
      if |Split(s)| > MAX_PATCH_LINES {
        SplitSliceJoin(s, MAX_PATCH_LINES);
      }
      var b := BoundedPatch(patch, remaining);
      var n := |b.patch.value|;
      assert b.patch.value == head[..n] == s[..n];
      FewerLineFeeds(head, n);
      forall m: nat | m <= |s| && Fits(s[..m], remaining) ensures m <= n {
        HeadIsLongest(s, MAX_PATCH_LINES, m);
      }
    }
  }

  // ----- the budget of all patches -----

  datatype File = File(name: string, additions: nat, deletions: nat, patch: Option<Text>)

  datatype ShownFile = ShownFile(file: File, patch: Option<Text>, truncated: bool, unavailable: bool)

  datatype Diff = Diff(files: seq<ShownFile>, additions: nat, deletions: nat, anyTruncated: bool)

  function ShownLength(files: seq<ShownFile>): nat {
    if files == [] then 0
    else
      var last := files[|files| - 1];
      ShownLength(files[..|files| - 1]) + if last.patch.Some? then |last.patch.value| else 0
  }

  function Additions(files: seq<File>): nat {
    if files == [] then 0 else Additions(files[..|files| - 1]) + files[|files| - 1].additions
  }

  function Deletions(files: seq<File>): nat {
    if files == [] then 0 else Deletions(files[..|files| - 1]) + files[|files| - 1].deletions
  }

  ghost predicate Flagged(f: ShownFile) {
    f.truncated || f.unavailable
  }

  function ShowFile(file: File, remaining: nat): ShownFile {
    var b := BoundedPatch(file.patch, remaining);
    ShownFile(file, b.patch, b.truncated, b.unavailable)
  }

  /** Each file is shown as its patch allows with what the files before it left of the budget. */
  function ShowFiles(files: seq<File>): (shown: seq<ShownFile>)
    ensures |shown| == |files| && ShownLength(shown) <= MAX_TOTAL_PATCH_CHARS
  {
    if files == [] then []
    else
      var file, before := files[|files| - 1], ShowFiles(files[..|files| - 1]);
      ShowingUses(file, before);
      before + [ShowFile(file, MAX_TOTAL_PATCH_CHARS - ShownLength(before))]
  }

  /** A text of at most 400 lines and 24000 characters, and no longer than what is left. */
  ghost predicate FitsIn(text: Text, left: nat) {
    LineFeeds(text) < 400 && |text| <= 24_000 && |text| <= left
  }

  /**
   What is shown of one file with `left` characters to spend: the longest prefix of its patch that fits. It is
   "unavailable" exactly if there is no text to show, and "truncated" exactly if some of the text is not shown.
   */
  ghost predicate ShowsFile(file: File, left: nat, shown: ShownFile) {
    var there := file.patch.Some? && file.patch.value != [];
    && shown.file == file
    && (shown.unavailable <==> !there)
    && (shown.patch.Some? <==> there)
    && (shown.truncated <==> there && shown.patch != file.patch)
    && (there ==>
          && shown.patch.value <= file.patch.value && FitsIn(shown.patch.value, left)
          && forall n: nat :: n <= |file.patch.value| && FitsIn(file.patch.value[..n], left) ==>
               n <= |shown.patch.value|)
  }

  lemma ShowFileShows(file: File, left: nat)
    ensures ShowsFile(file, left, ShowFile(file, left))
  {
    ShownIsLongestPrefix(file.patch, left);
    forall text ensures FitsIn(text, left) <==> Fits(text, left) {
    }
  }

  /** Every file is shown with what the files before it have left of 160000 characters. */
  ghost predicate ShowsAll(files: seq<File>, shown: seq<ShownFile>) {
    && |shown| == |files|
    && forall i :: 0 <= i < |files| ==>
         ShownLength(shown[..i]) <= 160_000 && ShowsFile(files[i], 160_000 - ShownLength(shown[..i]), shown[i])
  }

  lemma ShowsOneMore(files: seq<File>, file: File, shown: seq<ShownFile>, last: ShownFile)
    requires ShowsAll(files, shown) && ShownLength(shown) <= 160_000
    requires ShowsFile(file, 160_000 - ShownLength(shown), last)
    ensures ShowsAll(files + [file], shown + [last])
  {
    forall i | 0 <= i <= |files| ensures (shown + [last])[..i] == shown[..i] {
    }
    FullPrefix(shown);
  }

  /** What a file uses of the budget is what is shown of it. */
  lemma ShowingUses(file: File, before: seq<ShownFile>)
    requires ShownLength(before) <= MAX_TOTAL_PATCH_CHARS
    ensures var remaining := MAX_TOTAL_PATCH_CHARS - ShownLength(before);
      && BoundedPatch(file.patch, remaining).used <= remaining
      && ShownLength(before + [ShowFile(file, remaining)])
        == ShownLength(before) + BoundedPatch(file.patch, remaining).used
  {
    var remaining := MAX_TOTAL_PATCH_CHARS - ShownLength(before);
    ShownIsLongestPrefix(file.patch, remaining);
    assert (before + [ShowFile(file, remaining)])[..|before|] == before;
  }

  ghost predicate AnyFlagged(files: seq<ShownFile>) {
    exists f :: f in files && Flagged(f)
  }

  /** The state of the loop once it has shown `files`. */
  ghost predicate After(files: seq<File>, d: Diff) {
    && d.files == ShowFiles(files)
    && d.additions == Additions(files) && d.deletions == Deletions(files)
    && (d.anyTruncated <==> AnyFlagged(d.files))
  }

  function OneMore(d: Diff, shown: ShownFile): Diff {
    Diff(d.files + [shown], d.additions + shown.file.additions, d.deletions + shown.file.deletions,
         d.anyTruncated || shown.truncated || shown.unavailable)
  }

  lemma FlaggedStep(files: seq<ShownFile>, f: ShownFile)
    ensures AnyFlagged(files + [f]) <==> AnyFlagged(files) || Flagged(f)
  {
    if exists g :: g in files && Flagged(g) {
      var g :| g in files && Flagged(g);
      assert g in files + [f];
    }
    assert f in files + [f];
  }

  lemma AfterOneMore(files: seq<File>, i: nat, d: Diff, remaining: nat)
    requires i < |files| && After(files[..i], d)
    requires ShownLength(d.files) + remaining == MAX_TOTAL_PATCH_CHARS
    ensures After(files[..i + 1], OneMore(d, ShowFile(files[i], remaining)))
  {
    assert files[..i + 1][..i] == files[..i];
    FlaggedStep(d.files, ShowFile(files[i], remaining));
  }

  /** `Math.max(n, 0)`. */
  function AtLeastZero(n: int): nat {
    if n < 0 then 0 else n
  }

  method ShowNext(file: File, remaining: nat, ghost before: seq<ShownFile>) returns (shown: ShownFile, left: nat)
    requires ShownLength(before) + remaining == MAX_TOTAL_PATCH_CHARS
    ensures shown == ShowFile(file, remaining) && ShownLength(before + [shown]) + left == MAX_TOTAL_PATCH_CHARS
    ensures ShowsFile(file, remaining, shown)
  {
    ShowingUses(file, before);
    ShowFileShows(file, remaining);
    var bounded := BoundedPatch(file.patch, remaining);
    left := AtLeastZero(remaining - bounded.used);
    shown := ShownFile(file, bounded.patch, bounded.truncated, bounded.unavailable);
  }

  /**
   The loop of `loadPrDiff`. What is emitted and what remains always add up to the budget, and the diff is marked
   truncated exactly when a file is flagged.
   */
  method BoundFiles(rawFiles: seq<File>) returns (diff: Diff, remaining: nat)
    ensures After(rawFiles, diff) && ShowsAll(rawFiles, diff.files)
    ensures ShownLength(diff.files) + remaining == 160_000
  {
    remaining := MAX_TOTAL_PATCH_CHARS;
    diff := Diff([], 0, 0, false);
    for i := 0 to |rawFiles|
      invariant After(rawFiles[..i], diff) && ShownLength(diff.files) + remaining == MAX_TOTAL_PATCH_CHARS
      invariant ShowsAll(rawFiles[..i], diff.files)
    {
      PrefixStep(rawFiles, i);
      AfterOneMore(rawFiles, i, diff, remaining);
      var shown, left := ShowNext(rawFiles[i], remaining, diff.files);
      ShowsOneMore(rawFiles[..i], rawFiles[i], diff.files, shown);
      remaining := left;
      diff := OneMore(diff, shown);
    }
    FullPrefix(rawFiles);
  }
}
