/** Which reader `File.open` hands back for a file name. */
module Formats {
  import opened PosixPath

  /** The reader kinds: `zipfile.ZipFile`, `bz2.BZ2File`, `tarfile.open`,
      `gzip.open`, or the built-in `open` for everything else. */
  datatype Format = Zip | Bz2 | Tar | Gzip | Plain

  const TarGz: string := ".tar.gz"
  const TarBz2: string := ".tar.bz2"

  /** True when `fname` carries one of the two double suffixes that select tar. */
  predicate HasTarSuffix(fname: string) {
    EndsWith(fname, TarBz2) || EndsWith(fname, TarGz)
  }

  /** The dispatch table on an extension; comparison is exact (case-sensitive). */
  function FormatOfExt(ext: string): (f: Format) {
    if ext == ".zip" then Zip
    else if ext == ".bz2" then Bz2
    else if ext == ".tar" then Tar
    else if ext == ".gz" then Gzip
    else Plain
  }

  /** A name ending in `.tar.gz` has the `splitext` extension `.gz`, and one
      ending in `.tar.bz2` has `.bz2`: the double suffix is invisible to
      `splitext`, which is why `File.open` tests for it separately. */
  lemma TarSuffixExt(fname: string)
    ensures EndsWith(fname, TarGz) ==> Ext(fname) == ".gz"
    ensures EndsWith(fname, TarBz2) ==> Ext(fname) == ".bz2"
  {
    if EndsWith(fname, TarGz) {
      assert fname[|fname| - 3..] == fname[|fname| - 7..][4..];
      ExtOfSuffix(fname, ".gz");
    }
    if EndsWith(fname, TarBz2) {
      assert fname[|fname| - 4..] == fname[|fname| - 8..][4..];
      ExtOfSuffix(fname, ".bz2");
    }
  }

  /** The extension test of `File.open`: the `splitext` extension, replaced by
      `.tar` when the name ends with `.tar.bz2` or `.tar.gz`. Stated per reader
      against the extension alone: each reader is chosen exactly when the
      extension names it (and, for gzip and bzip2, the name is not a tar
      double suffix); every other extension -- the empty one and different
      capitalisations included -- opens as plain. */
  function Classify(fname: string): (r: Format)
    ensures r == Zip <==> Ext(fname) == ".zip"
    ensures r == Bz2 <==> Ext(fname) == ".bz2" && !EndsWith(fname, TarBz2)
    ensures r == Tar <==> Ext(fname) == ".tar" || HasTarSuffix(fname)
    ensures r == Gzip <==> Ext(fname) == ".gz" && !EndsWith(fname, TarGz)
    ensures r == Plain <==> Ext(fname) !in {".zip", ".bz2", ".tar", ".gz"}
  {
    TarSuffixExt(fname);
    var ext := if HasTarSuffix(fname) then ".tar" else Ext(fname);
    FormatOfExt(ext)
  }

  /** Any name ending in `.tar.gz` or `.tar.bz2` opens as tar, even though
      its `splitext` extension says gzip or bzip2. */
  lemma TarSuffixIsTar(fname: string)
    requires HasTarSuffix(fname)
    ensures Classify(fname) == Tar
    ensures Ext(fname) == ".gz" || Ext(fname) == ".bz2"
  {
  }

  /** Worked cases: the double suffix wins over the `splitext` extension. */
  lemma ClassifyTarExamples()
    ensures Classify("foo.tar.gz") == Tar
    ensures Classify("data/corpus.tar.bz2") == Tar
  {
  }

  /** Worked cases: only the last dot counts, and the comparison is
      case-sensitive. */
  lemma ClassifyExtensionExamples()
    ensures Classify("a.b.gz") == Gzip
    ensures Classify("train.zip") == Zip
    ensures Classify("X.ZIP") == Plain
  {
    ExtOfSuffix("a.b.gz", ".gz");
    ExtOfSuffix("train.zip", ".zip");
    ExtOfSuffix("X.ZIP", ".ZIP");
  }

  /** Worked cases with no extension at all: a dot in a directory name, a
      leading dot, and no dot. */
  lemma ClassifyPlainExamples()
    ensures Classify("dir.gz/data") == Plain
    ensures Classify(".gz") == Plain
    ensures Classify("noext") == Plain
  {
  }
}
