/** The names the export panel gives the downloaded files: the person's name
    with every run of whitespace turned into one underscore, or `resume` when
    there is no name, followed by `_CV` and the format's extension. */
module ExportNames {
  import opened Wrappers
  import opened Seqs
  import opened Text

  /** `name?.replace(/\s+/g, '_') || 'resume'`: an absent name and an empty
      name both fall back to `resume`. */
  function FileStem(name: Option<string>): (r: string)
    ensures |r| > 0
    ensures NoSpace(r)
  {
    match name
    case None => "resume"
    case Some(n) =>
      var replaced := ReplaceSpaceRuns(n, '_');
      if |replaced| == 0 then "resume" else replaced
  }

  /** The three export formats of the panel. */
  datatype Format = Pdf | Html | Word

  /** The part of the file name after the stem. */
  function Suffix(f: Format): string {
    match f
    case Pdf => "_CV.pdf"
    case Html => "_CV.html"
    case Word => "_CV.doc"
  }

  /** The download name for one format: the stem, then `_CV` and the
      format's extension. */
  function FileName(name: Option<string>, f: Format): (r: string)
    ensures |r| > |Suffix(f)| && r[|r| - |Suffix(f)|..] == Suffix(f)
  {
    FileStem(name) + Suffix(f)
  }

  /** The exports of one resume share the whitespace-free stem before `_CV`,
      whatever the two formats. */
  lemma SharedStem(name: Option<string>, f: Format, g: Format)
    ensures var n := |FileStem(name)|;
      && FileName(name, f)[..n] == FileName(name, g)[..n] == FileStem(name)
      && NoSpace(FileName(name, f)[..n])
  {
  }

  /** Only a missing or empty name falls back to `resume`; any other name,
      even one made only of whitespace, yields a stem of its own. */
  lemma {:induction false} FallbackIffBlank(n: string)
    ensures ReplaceSpaceRuns(n, '_') != [] <==> |n| > 0
    ensures |n| == 0 ==> FileStem(Some(n)) == "resume"
    ensures |n| > 0 ==> FileStem(Some(n)) == ReplaceSpaceRuns(n, '_')
  {
  }

  /** A name made only of whitespace becomes a single underscore. */
  lemma {:induction false} BlankNameIsUnderscore(n: string)
    requires |n| > 0 && AllSpace(n)
    ensures FileStem(Some(n)) == "_"
  {
    RunBecomesOne(n, '_');
  }

  /** A name without whitespace is used unchanged. */
  lemma {:induction false} PlainNameKept(n: string)
    requires |n| > 0 && NoSpace(n)
    ensures FileStem(Some(n)) == n
  {
  }

  /** Two words separated by any run of whitespace are joined by exactly one
      underscore: `"Ada \t Lovelace"` gives `Ada_Lovelace`. */
  lemma {:induction false} WordsJoinedByUnderscore(first: string, gap: string, last: string)
    requires |first| > 0 && NoSpace(first)
    requires |gap| > 0 && AllSpace(gap)
    requires |last| > 0 && NoSpace(last)
    ensures FileStem(Some(first + gap + last)) == first + "_" + last
  {
    ReplaceRunsConcat(gap, last, '_');
    ReplaceRunsConcat(first, gap + last, '_');
    RunBecomesOne(gap, '_');
    Assoc(first, gap, last);
    Assoc(first, "_", last);
  }
}
