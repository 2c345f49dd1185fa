/**
 * The archive's naming and the URL index: the file name given to the n-th
 * accepted page, the index line recorded for it, and the text of the index
 * file written at the end of the run, with the readers that take them apart
 * again.
 */
module IndexFile {
  import opened Wrappers
  import opened Decimal

  /** The column-label comment line opening the index. */
  const HEADER_LINE := "# File Number\tURL"

  /** The separator line under it: "#" followed by sixty "=". */
  const SEPARATOR_LINE := "#" + Repeat('=', 60)

  function Repeat(c: char, n: nat): (s: string)
    ensures |s| == n && forall i :: 0 <= i < n ==> s[i] == c
  {
    if n == 0 then [] else Repeat(c, n - 1) + [c]
  }

  /** The fixed parts of an archive file name around its number. */
  const FILE_PREFIX := "page_"
  const FILE_SUFFIX := ".txt"

  /** `f"page_{n:04d}.txt"`: the archive file of the n-th accepted page. */
  function FileName(n: nat): string {
    FILE_PREFIX + Pad4(n) + FILE_SUFFIX
  }

  /** Reads the sequence number back from an archive file name, if it has the archive's shape. */
  function FileNumber(name: string): Option<nat> {
    if |name| >= 9 && name[..5] == FILE_PREFIX && name[|name| - 4..] == FILE_SUFFIX && AllDigits(name[5..|name| - 4])
    then Some(ParseDecimal(name[5..|name| - 4]))
    else None
  }

  /** The sequence number is read back from every archive file name, however large. */
  lemma FileNameRoundTrip(n: nat)
    ensures FileNumber(FileName(n)) == Some(n)
  {
    var name := FileName(n);
    assert name[..5] == FILE_PREFIX && name[|name| - 4..] == FILE_SUFFIX;
    assert name[5..|name| - 4] == Pad4(n);
    Pad4RoundTrip(n);
  }

  /** The number is read back from the four-digit field between "page_" and ".txt". */
  lemma FileNameShape(n: nat)
    requires n <= 9999
    ensures |FileName(n)| == 13
    ensures FileName(n)[..5] == "page_" && FileName(n)[9..] == ".txt"
    ensures AllDigits(FileName(n)[5..9]) && ParseDecimal(FileName(n)[5..9]) == n
  {
    Pad4FixedWidth(n);
    Pad4RoundTrip(n);
    assert FileName(n)[5..9] == Pad4(n);
  }

  /** Distinct sequence numbers never share a file: no page overwrites another. */
  lemma FileNameInjective(a: nat, b: nat)
    requires FileName(a) == FileName(b)
    ensures a == b
  {
    var fa, fb := FileName(a), FileName(b);
    assert Pad4(a) == fa[5..|fa| - 4];
    assert Pad4(b) == fb[5..|fb| - 4];
    Pad4Injective(a, b);
  }

  /** The tab between the two fields of an index record. */
  const FIELD_SEPARATOR := "\t"

  /** `f"{n}\t{url}"`: the index record of the n-th accepted page. */
  function IndexLine(n: nat, url: string): string {
    NatToString(n) + FIELD_SEPARATOR + url
  }

  predicate NoNewline(line: string) {
    forall j :: 0 <= j < |line| ==> line[j] != '\n'
  }

  /** A record stays on one line as long as its URL does. */
  lemma IndexLineNoNewline(n: nat, url: string)
    requires NoNewline(url)
    ensures NoNewline(IndexLine(n, url))
  {
    var digits := NatToString(n);
    var line := IndexLine(n, url);
    forall j | 0 <= j < |line| ensures line[j] != '\n' {
      if j < |digits| {
        assert line[j] == digits[j];
      } else if j > |digits| {
        assert line[j] == url[j - |digits| - 1];
      }
    }
  }

  /** The position of the first c in s, or |s| when there is none. */
  function IndexOf(s: string, c: char): (i: nat)
    ensures i <= |s|
    ensures i < |s| ==> s[i] == c
    ensures forall j :: 0 <= j < i ==> s[j] != c
  {
    if s == [] then 0
    else if s[0] == c then 0
    else 1 + IndexOf(s[1..], c)
  }

  /** Reads an index record back: the number before the first tab, the URL after it. */
  function ParseIndexLine(line: string): Option<(nat, string)> {
    var i := IndexOf(line, '\t');
    if i == |line| || i == 0 || !AllDigits(line[..i]) then None
    else Some((ParseDecimal(line[..i]), line[i + 1..]))
  }

  /** The record `n\turl` parses back into n and the URL, whatever the URL holds. */
  lemma IndexLineRoundTrip(n: nat, url: string)
    ensures ParseIndexLine(IndexLine(n, url)) == Some((n, url))
  {
    var digits := NatToString(n);
    var line := IndexLine(n, url);
    assert line[|digits|] == '\t';
    assert forall j :: 0 <= j < |digits| ==> line[j] == digits[j];
    assert IndexOf(line, '\t') == |digits|;
    assert line[..|digits|] == digits;
    assert line[|digits| + 1..] == url;
    ParseNatToString(n);
  }

  /** The terminator written after every line of the index. */
  const LINE_END := "\n"

  /** Lines written one after another, each terminated by a newline. */
  function JoinLines(lines: seq<string>): string {
    if lines == [] then [] else lines[0] + LINE_END + JoinLines(lines[1..])
  }

  /** Splits text into its newline-terminated lines (a last unterminated line is kept too). */
  function SplitLines(text: string): seq<string>
    decreases |text|
  {
    if text == [] then []
    else
      var i := IndexOf(text, '\n');
      if i == |text| then [text] else [text[..i]] + SplitLines(text[i + 1..])
  }

  /** A newline-free line followed by the terminator splits off as the first line. */
  lemma SplitFirstLine(first: string, rest: string)
    requires NoNewline(first)
    ensures SplitLines(first + LINE_END + rest) == [first] + SplitLines(rest)
  {
    var text := first + LINE_END + rest;
    assert text[|first|] == '\n';
    assert forall j :: 0 <= j < |first| ==> text[j] == first[j];
    assert IndexOf(text, '\n') == |first|;
    assert text[..|first|] == first;
    assert text[|first| + 1..] == rest;
  }

  lemma {:induction false} SplitJoinLines(lines: seq<string>)
    requires forall k :: 0 <= k < |lines| ==> NoNewline(lines[k])
    ensures SplitLines(JoinLines(lines)) == lines
  {
    if lines != [] {
      SplitFirstLine(lines[0], JoinLines(lines[1..]));
      SplitJoinLines(lines[1..]);
      assert [lines[0]] + lines[1..] == lines;
    }
  }

  /** The text of the index file: the two header lines, then one record per entry. */
  function IndexText(entries: seq<string>): (text: string)
    ensures text == HEADER_LINE + LINE_END + SEPARATOR_LINE + LINE_END + JoinLines(entries)
  {
    var all := [HEADER_LINE, SEPARATOR_LINE] + entries;
    assert all[0] == HEADER_LINE && all[1..][0] == SEPARATOR_LINE && all[1..][1..] == entries;
    assert JoinLines(all[1..]) == SEPARATOR_LINE + LINE_END + JoinLines(entries);
    assert JoinLines(all) == HEADER_LINE + LINE_END + (SEPARATOR_LINE + LINE_END + JoinLines(entries));
    JoinLines(all)
  }

  /**
   * Reading the index file back gives the two header lines followed by exactly
   * the entries, in order; so the file holds one line per entry after the header.
   */
  lemma IndexTextLines(entries: seq<string>)
    requires forall k :: 0 <= k < |entries| ==> NoNewline(entries[k])
    ensures SplitLines(IndexText(entries)) == [HEADER_LINE, SEPARATOR_LINE] + entries
    ensures |SplitLines(IndexText(entries))| - 2 == |entries|
  {
    var all := [HEADER_LINE, SEPARATOR_LINE] + entries;
    assert NoNewline(HEADER_LINE);
    assert NoNewline(SEPARATOR_LINE);
    assert forall k :: 0 <= k < |all| ==> NoNewline(all[k]) by {
      forall k | 0 <= k < |all| ensures NoNewline(all[k]) {
        if k >= 2 { assert all[k] == entries[k - 2]; }
      }
    }
    SplitJoinLines(all);
  }
}
