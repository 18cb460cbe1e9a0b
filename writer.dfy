/** The scraper's output file: a JSON array written one record at a time into a
    text-mode file, and closed by seeking back over the last separator and
    writing the closing bracket over it. Records are opaque texts here. */
module Writer {
  import opened Text

  /** What a text-mode file writes for each "\n": itself on POSIX systems,
      carriage return and line feed on Windows. */
  predicate IsLineSeparator(nl: string) { nl == "\n" || nl == "\r\n" }

  /** The characters a text-mode write of `s` puts in the file. */
  function Translate(s: string, nl: string): string
  {
    if s == [] then [] else (if s[0] == '\n' then nl else [s[0]]) + Translate(s[1..], nl)
  }

  lemma {:induction false} TranslateAppend(a: string, b: string, nl: string)
    ensures Translate(a + b, nl) == Translate(a, nl) + Translate(b, nl)
  {
    if a == [] {
      assert a + b == b;
    } else {
      assert (a + b)[0] == a[0] && (a + b)[1..] == a[1..] + b;
      TranslateAppend(a[1..], b, nl);
    }
  }

  lemma TranslateChar(c: char, nl: string)
    ensures Translate([c], nl) == if c == '\n' then nl else [c]
  {
    assert [c][1..] == [];
  }

  /** The writer's own fixed texts. */
  lemma TranslateFixed(nl: string)
    ensures Translate("[\n", nl) == "[" + nl
    ensures Translate(",\n", nl) == "," + nl
    ensures Translate("\n]", nl) == nl + "]"
  {
    TranslateChar('[', nl);
    TranslateChar(',', nl);
    TranslateChar(']', nl);
    TranslateChar('\n', nl);
    TranslateAppend("[", "\n", nl);
    TranslateAppend(",", "\n", nl);
    TranslateAppend("\n", "]", nl);
  }

  /** The file after writing `s` at position `p`: what lay under `s` is replaced,
      what lies beyond it is kept, and the file grows when `s` runs past its end. */
  function Overwrite(c: string, p: nat, s: string): (r: string)
    requires p <= |c|
    ensures |r| == if p + |s| <= |c| then |c| else p + |s|
    ensures r[..p] == c[..p] && r[p..p + |s|] == s
    ensures p + |s| <= |c| ==> r[p + |s|..] == c[p + |s|..]
  {
    c[..p] + s + (if p + |s| <= |c| then c[p + |s|..] else [])
  }

  /** Writing at the end of the file appends. */
  lemma OverwriteAtEnd(c: string, s: string)
    ensures Overwrite(c, |c|, s) == c + s
  {
    assert c[..|c|] == c;
  }

  /** Writing over the last `|s|` characters replaces them. */
  lemma OverwriteTail(a: string, b: string, s: string)
    requires |b| == |s|
    ensures Overwrite(a + b, |a|, s) == a + s
  {
    assert (a + b)[..|a|] == a;
  }

  // ---------------------------------------------------------------------------
  // What the file should hold

  /** The records, each followed by its separator, as they stand in the file. */
  function Body(records: seq<string>, nl: string): string
  {
    if records == [] then []
    else Body(records[..|records| - 1], nl) + Translate(records[|records| - 1], nl) + "," + nl
  }

  /** The records separated by "," and a line break, as they stand in the file. */
  function Join(records: seq<string>, nl: string): string
  {
    if records == [] then []
    else if |records| == 1 then Translate(records[0], nl)
    else Join(records[..|records| - 1], nl) + "," + nl + Translate(records[|records| - 1], nl)
  }

  /** The JSON array the scraper means to write: an opening bracket and a line
      break, the records separated by "," and a line break, a line break and a
      closing bracket. */
  function ArrayText(records: seq<string>): string
  {
    "[\n" + RawJoin(records) + "\n]"
  }

  function RawJoin(records: seq<string>): string
  {
    if records == [] then []
    else if |records| == 1 then records[0]
    else RawJoin(records[..|records| - 1]) + ",\n" + records[|records| - 1]
  }

  /** The array as the file should hold it once closed. */
  function ArrayOnDisk(records: seq<string>, nl: string): string
  {
    "[" + nl + Join(records, nl) + nl + "]"
  }

  /** The closed file is the array text written through the text-mode translation. */
  lemma {:induction false} ArrayOnDiskTranslates(records: seq<string>, nl: string)
    ensures Translate(ArrayText(records), nl) == ArrayOnDisk(records, nl)
  {
    RawJoinTranslates(records, nl);
    TranslateFixed(nl);
    TranslateAppend("[\n" + RawJoin(records), "\n]", nl);
    TranslateAppend("[\n", RawJoin(records), nl);
  }

  lemma {:induction false} RawJoinTranslates(records: seq<string>, nl: string)
    ensures Translate(RawJoin(records), nl) == Join(records, nl)
  {
    if |records| > 1 {
      var init := records[..|records| - 1];
      var last := records[|records| - 1];
      RawJoinTranslates(init, nl);
      TranslateFixed(nl);
      TranslateAppend(RawJoin(init) + ",\n", last, nl);
      TranslateAppend(RawJoin(init), ",\n", nl);
    }
  }

  /** After at least one record, the body is the joined records and one more separator. */
  lemma {:induction false} BodyJoin(records: seq<string>, nl: string)
    requires records != []
    ensures Body(records, nl) == Join(records, nl) + "," + nl
  {
    if |records| > 1 {
      BodyJoin(records[..|records| - 1], nl);
    } else {
      assert records[..0] == [];
    }
  }

  /** Seeking back over the last separator and writing the line break and the
      closing bracket there closes the array. */
  lemma CloseOverSeparator(records: seq<string>, nl: string)
    requires records != []
    ensures var c := "[" + nl + Body(records, nl);
      |c| >= 1 + |nl| && Overwrite(c, |c| - (1 + |nl|), nl + "]") == ArrayOnDisk(records, nl)
  {
    var x := "[" + nl;
    var j := Join(records, nl);
    BodyJoin(records, nl);
    Regroup3(x, j, ",", nl);
    OverwriteTail(x + j, "," + nl, nl + "]");
    AppendAssoc(x + j, nl, "]", []);
  }

  lemma Regroup3<T>(x: seq<T>, j: seq<T>, c: seq<T>, n: seq<T>)
    ensures x + (j + c + n) == (x + j) + (c + n)
  {
  }

  lemma Regroup<T>(x: seq<T>, b: seq<T>, t: seq<T>, c: seq<T>, n: seq<T>)
    ensures (x + b) + (t + (c + n)) == x + (b + t + c + n)
  {
  }

  lemma BodySnoc(records: seq<string>, r: string, nl: string)
    ensures Body(records + [r], nl) == Body(records, nl) + Translate(r, nl) + "," + nl
  {
    SnocPrefix(records, r);
  }

  // ---------------------------------------------------------------------------
  // The file

  class ArrayFile {
    /** The characters in the file and the position of the next write. */
    var content: string
    var pos: nat
    /** Whether a record has been written since the array was opened. */
    var hasElements: bool
    const nl: string
    /** The records written so far. */
    ghost var records: seq<string>

    /** The open array: the opening bracket, then every record with its
        separator, and the position at the end. */
    ghost predicate Valid()
      reads this
    {
      IsLineSeparator(nl) && pos == |content| && content == "[" + nl + Body(records, nl)
      && hasElements == (records != [])
    }

    /** Opens the file and writes the opening bracket and a line break. */
    constructor Open(nl: string)
      requires IsLineSeparator(nl)
      ensures Valid() && records == [] && this.nl == nl
    {
      this.nl := nl;
      content := [];
      pos := 0;
      hasElements := false;
      records := [];
      new;
      Write("[\n");
      TranslateFixed(nl);
      OverwriteAtEnd([], "[" + nl);
    }

    /** A text-mode write at the current position. */
    method Write(s: string)
      requires pos <= |content|
      modifies this
      ensures content == Overwrite(old(content), old(pos), Translate(s, nl))
      ensures pos == old(pos) + |Translate(s, nl)|
      ensures records == old(records) && hasElements == old(hasElements)
    {
      var t := Translate(s, nl);
      content := Overwrite(content, pos, t);
      pos := pos + |t|;
    }

    /** Moves the position; a negative position is refused (Python's ValueError)
        and leaves the file as it was. */
    method Seek(p: int) returns (ok: bool)
      requires p <= |content|
      modifies this
      ensures ok <==> p >= 0
      ensures pos == if ok then p else old(pos)
      ensures content == old(content) && records == old(records) && hasElements == old(hasElements)
    {
      ok := p >= 0;
      if ok {
        pos := p;
      }
    }

    /** Writes one record and its separator. */
    method AppendRecord(rec: string)
      requires Valid()
      modifies this
      ensures Valid() && records == old(records) + [rec]
    {
      ghost var b := Body(records, nl);
      ghost var t := Translate(rec, nl);
      Write(rec + ",\n");
      TranslateFixed(nl);
      TranslateAppend(rec, ",\n", nl);
      OverwriteAtEnd("[" + nl + b, t + ("," + nl));
      hasElements := true;
      records := records + [rec];
      BodySnoc(old(records), rec, nl);
      Regroup("[" + nl, b, t, ",", nl);
    }

    /** The scraper's closing step: seek back three characters from the end and
        write a line break and the closing bracket there. */
    method FinalizeAsWritten() returns (ok: bool)
      requires Valid()
      modifies this
      ensures ok == AsWrittenOutput(old(records), nl).Some?
      ensures ok ==> content == AsWrittenOutput(old(records), nl).value
      ensures !ok ==> content == old(content)
    {
      ok := Seek(pos - 3);
      if ok {
        Write("\n]");
        TranslateFixed(nl);
      }
    }

    /** The closing step with the writer's two states: with no record, the line
        break and closing bracket follow the opening bracket; otherwise they
        replace the last separator, whatever its length. */
    method Finalize()
      requires Valid()
      modifies this
      ensures content == ArrayOnDisk(old(records), nl)
    {
      TranslateFixed(nl);
      if hasElements {
        CloseOverSeparator(records, nl);
        var ok := Seek(pos - |Translate(",\n", nl)|);
        Write("\n]");
      } else {
        Write("\n]");
        OverwriteAtEnd("[" + nl, nl + "]");
      }
    }
  }

  /** The closed file the scraper's closing step leaves, or None when the seek is
      refused. */
  function AsWrittenOutput(records: seq<string>, nl: string): Option<string>
  {
    var c := "[" + nl + Body(records, nl);
    if |c| < 3 then None else Some(Overwrite(c, |c| - 3, nl + "]"))
  }

  /** The scraper's whole run over the records, closed as the scraper closes it. */
  method WriteAllAsWritten(nl: string, records: seq<string>) returns (output: Option<string>)
    requires IsLineSeparator(nl)
    ensures output == AsWrittenOutput(records, nl)
  {
    var file := new ArrayFile.Open(nl);
    var i := 0;
    while i < |records|
      invariant 0 <= i <= |records| && file.Valid() && file.nl == nl && file.records == records[..i]
    {
      file.AppendRecord(records[i]);
      SnocPrefix(records[..i], records[i]);
      assert records[..i + 1] == records[..i] + [records[i]];
      i := i + 1;
    }
    assert records[..i] == records;
    var ok := file.FinalizeAsWritten();
    output := if ok then Some(file.content) else None;
  }

  /** The same run closed by `Finalize`: always the array. */
  method WriteAll(nl: string, records: seq<string>) returns (output: string)
    requires IsLineSeparator(nl)
    ensures output == ArrayOnDisk(records, nl)
  {
    var file := new ArrayFile.Open(nl);
    var i := 0;
    while i < |records|
      invariant 0 <= i <= |records| && file.Valid() && file.nl == nl && file.records == records[..i]
    {
      file.AppendRecord(records[i]);
      assert records[..i + 1] == records[..i] + [records[i]];
      i := i + 1;
    }
    assert records[..i] == records;
    file.Finalize();
    output := file.content;
  }

  // ---------------------------------------------------------------------------
  // When the scraper's closing step is right

  /** With a two-character line break and at least one record, seeking back
      three characters lands exactly on the last separator. */
  lemma AsWrittenExactOnCrLf(records: seq<string>)
    requires records != []
    ensures AsWrittenOutput(records, "\r\n") == Some(ArrayOnDisk(records, "\r\n"))
  {
    CloseOverSeparator(records, "\r\n");
  }

  /** With a one-character line break the closing step starts one character too
      early: the file keeps its length, so it still ends in the old line break,
      not in the closing bracket. */
  lemma AsWrittenWrongOnLf(records: seq<string>)
    requires records != []
    ensures AsWrittenOutput(records, "\n").Some?
    ensures var out := AsWrittenOutput(records, "\n").value;
      out[|out| - 1] == '\n' && out != ArrayOnDisk(records, "\n")
  {
    var nl := "\n";
    var c := "[" + nl + Body(records, nl);
    BodyJoin(records, nl);
    assert c[|c| - 1] == '\n';
    var out := Overwrite(c, |c| - 3, nl + "]");
    assert out[|out| - 1] == out[|c| - 1..][0] == c[|c| - 1..][0];
    var a := ArrayOnDisk(records, nl);
    assert a[|a| - 1] == ']';
  }

  /** One record `{}` on a POSIX system: the record's closing brace is overwritten. */
  lemma AsWrittenOneRecordOnLf()
    ensures AsWrittenOutput(["{}"], "\n") == Some("[\n{\n]\n")
    ensures ArrayOnDisk(["{}"], "\n") == "[\n{}\n]"
  {
    var records := ["{}"];
    var nl := "\n";
    assert records[..0] == [];
    TranslateChar('{', nl);
    TranslateChar('}', nl);
    TranslateAppend("{", "}", nl);
    assert Translate("{}", nl) == "{}";
    assert Join(records, nl) == "{}";
    assert Body(records, nl) == "{},\n";
    var c := "[\n{},\n";
    assert "[" + nl + Body(records, nl) == c;
    assert |c| == 6 && c[..3] == "[\n{" && c[5..] == "\n";
    assert Overwrite(c, 3, nl + "]") == c[..3] + "\n]" + c[5..] == "[\n{\n]\n";
  }

  /** With no record the closing step fails either way: on POSIX the seek is
      negative (the run ends with an error), on Windows the opening bracket is
      overwritten. */
  lemma AsWrittenEmpty()
    ensures AsWrittenOutput([], "\n") == None
    ensures AsWrittenOutput([], "\r\n") == Some("\r\n]")
    ensures ArrayOnDisk([], "\n") == "[\n\n]" && ArrayOnDisk([], "\r\n") == "[\r\n\r\n]"
  {
    var c := "[\r\n";
    assert "[" + "\r\n" + Body([], "\r\n") == c;
    assert c[..0] == [] && c[3..] == [];
    assert Overwrite(c, 0, "\r\n" + "]") == [] + "\r\n]" + [] == "\r\n]";
    assert "[" + "\n" + Body([], "\n") == "[\n";
  }

  /** The scraper's closing step writes the array exactly when there is at least
      one record and the line break is two characters long. */
  lemma AsWrittenCorrectIff(records: seq<string>, nl: string)
    requires IsLineSeparator(nl)
    ensures AsWrittenOutput(records, nl) == Some(ArrayOnDisk(records, nl))
        <==> records != [] && nl == "\r\n"
  {
    if records == [] {
      AsWrittenEmpty();
    } else if nl == "\n" {
      AsWrittenWrongOnLf(records);
    } else {
      AsWrittenExactOnCrLf(records);
    }
  }
}
