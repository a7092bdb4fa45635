/**
  Choosing the decoding path from the uploaded file's original name:
  the extension as Node's POSIX `path.extname` computes it, lower-cased,
  decides between the delimited-text path, the spreadsheet path and
  rejection.
 */
module Formats {

  import opened ListTypes

  datatype Format = Delimited | Spreadsheet | Unsupported

  /** ASCII lower-casing of one character. */
  function LowerChar(c: char): char
  {
    if 'A' <= c <= 'Z' then (c as int + 32) as char else c
  }

  function Lower(s: string): string
  {
    seq(|s|, i requires 0 <= i < |s| => LowerChar(s[i]))
  }

  /** The path without its trailing separators. */
  function TrimSlashes(path: string): string
  {
    if |path| > 0 && path[|path| - 1] == '/' then TrimSlashes(path[..|path| - 1]) else path
  }

  /** Trimming removes separators from the end only, and all of them. */
  lemma {:induction false} TrimSlashesSpec(path: string)
    ensures var r := TrimSlashes(path);
      && |r| <= |path| && r == path[..|r|]
      && (r == [] || r[|r| - 1] != '/')
      && forall i :: |r| <= i < |path| ==> path[i] == '/'
  {
    if |path| > 0 && path[|path| - 1] == '/' {
      TrimSlashesSpec(path[..|path| - 1]);
    }
  }

  /** The characters after the last separator. */
  function LastSegment(path: string): string
  {
    if |path| == 0 || path[|path| - 1] == '/' then []
    else LastSegment(path[..|path| - 1]) + [path[|path| - 1]]
  }

  /** The last segment is a suffix without separators, preceded by a separator when it is not the whole path. */
  lemma {:induction false} LastSegmentSpec(path: string)
    ensures var r := LastSegment(path);
      && |r| <= |path| && r == path[|path| - |r|..]
      && '/' !in r
      && (|r| < |path| ==> path[|path| - |r| - 1] == '/')
  {
    if |path| > 0 && path[|path| - 1] != '/' {
      var p := path[..|path| - 1];
      LastSegmentSpec(p);
      assert path == p + [path[|path| - 1]];
    }
  }

  /** Index of the last '.' in `s`. */
  function LastDot(s: string): (r: Option<nat>)
    ensures r.Some? ==> r.value < |s| && s[r.value] == '.'
  {
    if |s| == 0 then None
    else if s[|s| - 1] == '.' then Some(|s| - 1)
    else LastDot(s[..|s| - 1])
  }

  /** `LastDot` finds a '.' exactly when there is one, and no '.' follows the one it finds. */
  lemma {:induction false} LastDotSpec(s: string)
    ensures LastDot(s).None? <==> '.' !in s
    ensures LastDot(s).Some? ==> LastDot(s).value < |s| && s[LastDot(s).value] == '.' && '.' !in s[LastDot(s).value + 1..]
  {
    if |s| > 0 && s[|s| - 1] != '.' {
      var p := s[..|s| - 1];
      LastDotSpec(p);
      assert s == p + [s[|s| - 1]];
      var r := LastDot(p);
      if r.Some? {
        assert s[r.value + 1..] == p[r.value + 1..] + [s[|s| - 1]];
      }
    }
  }

  /**
    The extension of a path: from the last '.' of its last segment to the
    end, or empty when that segment has no '.', starts with its only
    '.', or is exactly "..".
   */
  function Extname(path: string): string
  {
    var b := LastSegment(TrimSlashes(path));
    match LastDot(b)
    case None => []
    case Some(d) => if d == 0 || b == ".." then [] else b[d..]
  }

  /** An extension is empty or a '.' followed by characters that are neither '.' nor separators. */
  lemma ExtnameShape(path: string)
    ensures var e := Extname(path);
      && |e| <= |path|
      && (e == [] || (e[0] == '.' && '.' !in e[1..] && '/' !in e))
  {
    var t := TrimSlashes(path);
    var b := LastSegment(t);
    TrimSlashesSpec(path);
    LastSegmentSpec(t);
    LastDotSpec(b);
    match LastDot(b)
    case None =>
      assert Extname(path) == [];
    case Some(d) =>
      if d == 0 || b == ".." {
        assert Extname(path) == [];
      } else {
        assert Extname(path) == b[d..];
        SuffixFrom(b, d);
      }
  }

  /** The suffix of `b` from its last '.' starts with that '.', holds no other, and no separator if `b` holds none. */
  lemma SuffixFrom(b: string, d: nat)
    requires d < |b| && b[d] == '.' && '.' !in b[d + 1..]
    ensures b[d..][0] == '.' && b[d..][1..] == b[d + 1..]
    ensures '/' !in b ==> '/' !in b[d..]
  {
    assert forall c :: c in b[d..] ==> c in b;
  }

  /** The dispatch of the upload handler on a lower-cased extension. */
  function ExtensionFormat(ext: string): Format
  {
    if ext == ".csv" then Delimited
    else if ext == ".xlsx" || ext == ".xls" then Spreadsheet
    else Unsupported
  }

  /** The format the upload handler picks for a file's original name. */
  function Classify(originalName: string): Format
  {
    ExtensionFormat(Lower(Extname(originalName)))
  }

  /**
    The name has a '.' at index `d` that is preceded by a character other
    than a separator and followed by at least one character, none of them
    a '.' or a separator: "report.CSV" with `d` = 6.
   */
  predicate DotAt(name: string, d: nat)
  {
    && 0 < d < |name| - 1
    && name[d] == '.' && name[d - 1] != '/'
    && forall i :: d < i < |name| ==> name[i] != '.' && name[i] != '/'
  }

  /** A path whose last `m` characters hold no separator has a last segment of at least `m` characters. */
  lemma {:induction false} LastSegmentCovers(path: string, m: nat)
    requires m <= |path|
    requires forall i :: |path| - m <= i < |path| ==> path[i] != '/'
    ensures |LastSegment(path)| >= m
  {
    if m > 0 {
      LastSegmentCovers(path[..|path| - 1], m - 1);
    }
  }

  /** A dot after which no dot follows is the last dot. */
  lemma {:induction false} LastDotAt(s: string, p: nat)
    requires p < |s| && s[p] == '.'
    requires forall i :: p < i < |s| ==> s[i] != '.'
    ensures LastDot(s) == Some(p)
  {
    if p < |s| - 1 {
      LastDotAt(s[..|s| - 1], p);
    }
  }

  /** A path that does not end in a separator is its own trimmed form. */
  lemma TrimNoop(path: string)
    requires |path| > 0 && path[|path| - 1] != '/'
    ensures TrimSlashes(path) == path
  {
  }

  /** The last dot of a suffix of `s` is the last dot of `s`, shifted. */
  lemma LastDotOfSuffix(s: string, k: nat, d: nat)
    requires k <= d < |s| && s[d] == '.'
    requires forall i :: d < i < |s| ==> s[i] != '.'
    ensures LastDot(s[k..]) == Some(d - k)
  {
    var t := s[k..];
    assert forall i :: d - k < i < |t| ==> t[i] == s[k + i];
    LastDotAt(t, d - k);
  }

  /** When the last segment's last dot is neither its first nor its last character, the extension starts there. */
  lemma ExtnameAtDot(path: string, b: string, p: nat)
    requires TrimSlashes(path) == path && b == LastSegment(path)
    requires LastDot(b) == Some(p) && 0 < p < |b| - 1
    ensures Extname(path) == b[p..]
  {
    assert b != ".." by { assert |b| > 2; }
  }

  /** When the last segment's first character is its last dot, there is no extension. */
  lemma ExtnameAtFirstDot(path: string, b: string)
    requires TrimSlashes(path) == path && b == LastSegment(path)
    requires LastDot(b) == Some(0)
    ensures Extname(path) == []
  {
  }

  /** Where the last dot of such a name's last segment lies. */
  lemma DotInLastSegment(name: string, d: nat) returns (b: string, p: nat)
    requires DotAt(name, d)
    ensures TrimSlashes(name) == name && b == LastSegment(name)
    ensures LastDot(b) == Some(p) && 0 < p < |b| - 1 && b[p..] == name[d..]
  {
    TrimNoop(name);
    LastSegmentCovers(name, |name| - d + 1);
    LastSegmentSpec(name);
    b := LastSegment(name);
    var k := |name| - |b|;
    assert b == name[k..];
    LastDotOfSuffix(name, k, d);
    p := d - k;
  }

  lemma ExtnameOfDot(name: string, d: nat)
    requires DotAt(name, d)
    ensures Extname(name) == name[d..]
  {
    var b, p := DotInLastSegment(name, d);
    ExtnameAtDot(name, b, p);
  }

  lemma LowerAppend(a: string, b: string)
    ensures Lower(a + b) == Lower(a) + Lower(b)
  {
    var l, r := Lower(a + b), Lower(a) + Lower(b);
    assert |l| == |r|;
    forall i | 0 <= i < |l| ensures l[i] == r[i] {
      if i < |a| {
        assert (a + b)[i] == a[i];
      } else {
        assert (a + b)[i] == b[i - |a|];
      }
    }
  }

  /** Lower-casing keeps a leading '.' and lower-cases the rest. */
  lemma LowerDotPrefix(e: string)
    requires |e| > 0 && e[0] == '.'
    ensures Lower(e) == "." + Lower(e[1..])
  {
    assert e == [e[0]] + e[1..];
    LowerAppend([e[0]], e[1..]);
    assert Lower([e[0]]) == ".";
  }

  /** The lower-cased extension of such a name is the dot and its lower-cased suffix. */
  lemma LowerExtname(name: string, d: nat)
    requires DotAt(name, d)
    ensures Lower(Extname(name)) == "." + Lower(name[d + 1..])
  {
    ExtnameOfDot(name, d);
    var e := name[d..];
    assert e[1..] == name[d + 1..];
    LowerDotPrefix(e);
  }

  lemma DelimitedExtension(x: string)
    ensures ExtensionFormat("." + x) == Delimited <==> x == "csv"
  {
    assert ("." + x)[1..] == x;
  }

  lemma SpreadsheetExtension(x: string)
    ensures ExtensionFormat("." + x) == Spreadsheet <==> x == "xlsx" || x == "xls"
  {
    var e := "." + x;
    assert e[1..] == x;
    if x == "xlsx" || x == "xls" {
      assert e[1] == 'x';
      assert e != ".csv" by { assert ".csv"[1] == 'c'; }
    }
  }

  /** The delimited-text path is taken exactly for a case-insensitive "csv" suffix. */
  lemma ClassifyDelimited(name: string, d: nat)
    requires DotAt(name, d)
    ensures Classify(name) == Delimited <==> Lower(name[d + 1..]) == "csv"
  {
    LowerExtname(name, d);
    DelimitedExtension(Lower(name[d + 1..]));
  }

  /** The spreadsheet path is taken exactly for a case-insensitive "xlsx" or "xls" suffix. */
  lemma ClassifySpreadsheet(name: string, d: nat)
    requires DotAt(name, d)
    ensures Classify(name) == Spreadsheet <==> Lower(name[d + 1..]) == "xlsx" || Lower(name[d + 1..]) == "xls"
  {
    LowerExtname(name, d);
    SpreadsheetExtension(Lower(name[d + 1..]));
  }

  lemma NoExtensionRejected(name: string)
    requires Extname(name) == []
    ensures Classify(name) == Unsupported
  {
    assert Lower([]) == [];
  }

  /** A path without any separator is its own last segment. */
  lemma WholeSegment(path: string)
    requires |path| > 0
    requires forall i :: 0 <= i < |path| ==> path[i] != '/'
    ensures TrimSlashes(path) == path && LastSegment(path) == path
  {
    TrimNoop(path);
    LastSegmentCovers(path, |path|);
    LastSegmentSpec(path);
  }

  /** A name whose only '.' is its first character, such as ".csv", has no extension and is rejected. */
  lemma LeadingDotRejected(name: string)
    requires |name| > 1 && name[0] == '.'
    requires forall i :: 0 < i < |name| ==> name[i] != '.' && name[i] != '/'
    ensures Extname(name) == [] && Classify(name) == Unsupported
  {
    WholeSegment(name);
    LastDotAt(name, 0);
    ExtnameAtFirstDot(name, name);
    NoExtensionRejected(name);
  }

  /** A name with no '.' at all is rejected. */
  lemma ClassifyNoDot(name: string)
    requires '.' !in name
    ensures Classify(name) == Unsupported
  {
    var t := TrimSlashes(name);
    var b := LastSegment(t);
    TrimSlashesSpec(name);
    LastSegmentSpec(t);
    assert forall c :: c in b ==> c in name by {
      assert forall c :: c in b ==> c in t;
      assert forall c :: c in t ==> c in name;
    }
    LastDotSpec(b);
    NoExtensionRejected(name);
  }

  /** A concrete name: "list.csv" takes the delimited path. */
  lemma ListCsvIsDelimited()
    ensures Classify("list.csv") == Delimited
  {
    assert DotAt("list.csv", 4);
    assert Lower("list.csv"[5..]) == "csv";
    ClassifyDelimited("list.csv", 4);
  }
}
