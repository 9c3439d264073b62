/**
 * format_path of s4lt/cli/output.py: a path longer than the limit keeps its
 * file name and loses the middle, or, when even the name is too long, keeps
 * the end of the name behind "...".
 */
module Output {
  import opened Text
  import opened Paths

  /** Python's s[-k:] for any int k: the last k characters, the whole string for k == 0, a drop of -k for k < 0. */
  function PyTail(s: string, k: int): (r: string)
    ensures k > 0 ==> r == s[|s| - (if k <= |s| then k else |s|)..]
    ensures k == 0 ==> r == s
    ensures k < 0 ==> r == s[(if -k <= |s| then -k else |s|)..]
  {
    if k > 0 then (if k <= |s| then s[|s| - k..] else s)
    else if k == 0 then s
    else if -k <= |s| then s[-k..] else []
  }

  /** format_path(path, max_len). */
  function FormatPath(path: string, maxLen: int): (r: string)
  {
    if |path| <= maxLen then path
    else
      var filename := Name(path);
      if |filename| >= maxLen - 4 then "..." + PyTail(filename, maxLen - 3)
      else
        var available := maxLen - |filename| - 4;
        path[..available] + ".../" + filename
  }

  /** A path that fits is returned as it is. */
  lemma ShortPathUnchanged(path: string, maxLen: int)
    requires |path| <= maxLen
    ensures FormatPath(path, maxLen) == path
  {
  }

  /**
   * A path that does not fit comes back no longer than the limit (for a
   * limit of at least 4), behind "..." and ending in the tail of its
   * last component; when the name itself fits the result keeps the whole
   * name behind ".../", after as much of the path's start as there is room for.
   */
  lemma LongPathTruncated(path: string, maxLen: int)
    requires |path| > maxLen >= 4
    ensures var r := FormatPath(path, maxLen);
      |r| <= maxLen && |r| >= 3 &&
      exists j :: OccursAt(r, "...", j)
    ensures var r := FormatPath(path, maxLen);
      var filename := Name(path);
      (|filename| >= maxLen - 4 ==>
        r[..3] == "..." && r[3..] == filename[|filename| - (if maxLen - 3 <= |filename| then maxLen - 3 else |filename|)..]) &&
      (|filename| < maxLen - 4 ==>
        |r| == maxLen && r == path[..maxLen - |filename| - 4] + ".../" + filename &&
        r[|r| - |filename|..] == filename)
  {
    var r := FormatPath(path, maxLen);
    var filename := Name(path);
    if |filename| >= maxLen - 4 {
      assert OccursAt(r, "...", 0);
    } else {
      var p := path[..maxLen - |filename| - 4];
      assert r == p + ".../" + filename;
      assert OccursAt(r, "...", |p|);
      assert r[|r| - |filename|..] == filename;
    }
  }
}
