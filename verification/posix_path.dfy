/** The string operations on POSIX paths that the file helpers rely on:
    `str.rfind`, `str.endswith`, `os.path.splitext` and `os.path.join`.
    `/` is the only separator and `.` the extension separator. */
module PosixPath {

  const Sep: char := '/'
  const ExtSep: char := '.'

  /** `str.endswith`: `suffix` is a suffix of `s` (the empty suffix always is). */
  predicate EndsWith(s: string, suffix: string) {
    |suffix| <= |s| && s[|s| - |suffix|..] == suffix
  }

  /** `str.rfind` for one character: the index of the last `c` in `s`, or -1. */
  function LastIndexOf(s: string, c: char): (r: int)
    ensures -1 <= r < |s|
    ensures 0 <= r ==> s[r] == c
    ensures forall j :: r < j < |s| ==> s[j] != c
    decreases |s|
  {
    if |s| == 0 then -1
    else if s[|s| - 1] == c then |s| - 1
    else LastIndexOf(s[..|s| - 1], c)
  }

  /** `os.path.splitext`: split `p` into (root, ext) at the last `.` of the
      final path component, provided that some character other than `.`
      precedes it within that component; otherwise the extension is empty. */
  function SplitExt(p: string): (r: (string, string))
    ensures r.0 + r.1 == p
    ensures r.1 == [] || r.1[0] == ExtSep
  {
    var sep := LastIndexOf(p, Sep);
    var dot := LastIndexOf(p, ExtSep);
    if sep < dot && exists i :: sep < i < dot && p[i] != ExtSep then
      (p[..dot], p[dot..])
    else
      (p, [])
  }

  /** The extension part of `SplitExt`. */
  function Ext(p: string): (e: string) {
    SplitExt(p).1
  }

  /** Declarative reading of the extension rule: position `k` holds the dot
      that starts the extension of `p` when it is a `.`, no `.` or `/`
      follows it, and an ordinary character (neither `.` nor `/`) precedes it
      in the same path component. */
  ghost predicate IsExtDot(p: string, k: int) {
    && 0 <= k < |p|
    && p[k] == ExtSep
    && (forall j :: k < j < |p| ==> p[j] != ExtSep && p[j] != Sep)
    && (exists i :: 0 <= i < k && p[i] != ExtSep && p[i] != Sep
                    && forall j :: i < j < k ==> p[j] != Sep)
  }

  /** `SplitExt` finds an extension exactly when the declarative rule names a
      dot, and then splits at that dot. */
  lemma {:induction false} SplitExtCharacterization(p: string)
    ensures Ext(p) != [] <==> exists k :: IsExtDot(p, k)
    ensures forall k :: IsExtDot(p, k) ==> SplitExt(p) == (p[..k], p[k..])
  {
    var sep := LastIndexOf(p, Sep);
    var dot := LastIndexOf(p, ExtSep);
    if sep < dot && exists i :: sep < i < dot && p[i] != ExtSep {
      var i :| sep < i < dot && p[i] != ExtSep;
      assert IsExtDot(p, dot);
    }
    forall k | IsExtDot(p, k)
      ensures SplitExt(p) == (p[..k], p[k..])
    {
      // k is the last dot, and the last separator lies before the witness
      assert k == dot;
      var i :| 0 <= i < k && p[i] != ExtSep && p[i] != Sep
               && forall j :: i < j < k ==> p[j] != Sep;
      assert sep < i;
    }
  }

  /** A name whose last component ends with an ordinary character followed
      by `ext` (a dot and then neither dots nor separators) has extension `ext`. */
  lemma ExtOfSuffix(p: string, ext: string)
    requires |ext| >= 1 && ext[0] == ExtSep
    requires forall j :: 0 < j < |ext| ==> ext[j] != ExtSep && ext[j] != Sep
    requires |ext| < |p| && EndsWith(p, ext)
    requires p[|p| - |ext| - 1] != ExtSep && p[|p| - |ext| - 1] != Sep
    ensures Ext(p) == ext
  {
  }

  /** `str.rfind` as a backwards scan. */
  method RFind(s: string, c: char) returns (r: int)
    ensures r == LastIndexOf(s, c)
  {
    r := |s| - 1;
    while 0 <= r && s[r] != c
      invariant -1 <= r < |s|
      invariant forall j :: r < j < |s| ==> s[j] != c
    {
      r := r - 1;
    }
  }

  /** `os.path.splitext` as the library executes it: find the last separator
      and the last dot, then skip the leading dots of the final component. */
  method SplitExtScan(p: string) returns (root: string, ext: string)
    ensures (root, ext) == SplitExt(p)
  {
    var sepIndex := RFind(p, Sep);
    var dotIndex := RFind(p, ExtSep);
    if sepIndex < dotIndex {
      var filenameIndex := sepIndex + 1;
      while filenameIndex < dotIndex
        invariant sepIndex < filenameIndex <= dotIndex
        invariant forall j :: sepIndex < j < filenameIndex ==> p[j] == ExtSep
      {
        if p[filenameIndex] != ExtSep {
          return p[..dotIndex], p[dotIndex..];
        }
        filenameIndex := filenameIndex + 1;
      }
    }
    return p, [];
  }

  /** `os.path.join` of two parts: an absolute `b` replaces `a`; otherwise
      `b` is appended, with a `/` in between unless `a` is empty or already
      ends with one. */
  function Join(a: string, b: string): (r: string)
    ensures EndsWith(r, b)
    ensures |b| > 0 && b[0] == Sep ==> r == b
    ensures !(|b| > 0 && b[0] == Sep) ==> |a| <= |r| && r[..|a|] == a
    ensures !(|b| > 0 && b[0] == Sep) && a != [] ==> |a| <= |r| - |b| && r[|r| - |b| - 1] == Sep
    ensures !(|b| > 0 && b[0] == Sep) ==>
              |r| == |a| + |b| + (if a == [] || a[|a| - 1] == Sep then 0 else 1)
  {
    if |b| > 0 && b[0] == Sep then b
    else if a == [] || a[|a| - 1] == Sep then a + b
    else a + [Sep] + b
  }
}
