/**
 * Turning tab-separated student lines (ID, NAME, START_DATE, END_DATE) into
 * blank report records, one YAML document per line:
 *
 *   ---
 *   - {name: "NAME", id: "ID", sd: "START_DATE", ed: "END_DATE"}
 *   - comment:
 *   - {start: 1, end: 10}
 *   ...
 *
 * The `---` and `...` lines are the document start and end markers of
 * YAML 1.2.2 (section 9.1.2); each field is put in double quotes, but its
 * contents are not escaped.
 */
module TsvReports {
  import opened Wrappers
  import opened TextSplit

  // ---------------------------------------------------------------------------
  // Positional formatting

  /** One piece of a format string: literal text, or a positional field `{n}`. */
  datatype Piece = Lit(text: string) | Arg(index: nat)

  /** Every field `template` names is one of the first `count` arguments. */
  predicate Fits(template: seq<Piece>, count: nat) {
    forall k :: 0 <= k < |template| && template[k].Arg? ==> template[k].index < count
  }

  /** The text a piece stands for. */
  function Value(p: Piece, args: seq<string>): string
    requires p.Arg? ==> p.index < |args|
  {
    if p.Lit? then p.text else args[p.index]
  }

  /** `template.format(*args)`: each field replaced by the argument it names. */
  function Format(template: seq<Piece>, args: seq<string>): string
    requires Fits(template, |args|)
  {
    FormatFrom(template, 0, args)
  }

  /** The formatted text of `template`'s pieces from the `k`-th on. */
  function FormatFrom(template: seq<Piece>, k: nat, args: seq<string>): string
    requires Fits(template, |args|)
    decreases |template| - k
  {
    if k >= |template| then "" else Value(template[k], args) + FormatFrom(template, k + 1, args)
  }

  lemma {:induction false} FormatFromReadsNamedArgs(template: seq<Piece>, k: nat, args: seq<string>,
                                                     args': seq<string>, count: nat)
    requires Fits(template, count) && count <= |args| && count <= |args'|
    requires args[..count] == args'[..count]
    ensures FormatFrom(template, k, args) == FormatFrom(template, k, args')
    decreases |template| - k
  {
    if k < |template| {
      if template[k].Arg? {
        var n := template[k].index;
        assert args[n] == args[..count][n] == args'[..count][n] == args'[n];
      }
      FormatFromReadsNamedArgs(template, k + 1, args, args', count);
    }
  }

  /** Only the arguments the template names are read: any further ones are ignored. */
  lemma FormatReadsNamedArgs(template: seq<Piece>, args: seq<string>, args': seq<string>, count: nat)
    requires Fits(template, count) && count <= |args| && count <= |args'|
    requires args[..count] == args'[..count]
    ensures Format(template, args) == Format(template, args')
  {
    FormatFromReadsNamedArgs(template, 0, args, args', count);
  }

  /** The format string of the mapping line: 'name: "{1}", id: "{0}", sd: "{2}", ed: "{3}"'. */
  const MappingTemplate: seq<Piece> :=
    [Lit("name: \""), Arg(1), Lit("\", id: \""), Arg(0), Lit("\", sd: \""), Arg(2),
     Lit("\", ed: \""), Arg(3), Lit("\"")]

  /** The mapping names field 1 first, then fields 0, 2 and 3, each in double quotes. */
  lemma MappingText(fields: seq<string>)
    requires |fields| >= 4
    ensures Fits(MappingTemplate, |fields|)
    ensures Format(MappingTemplate, fields) ==
            "name: \"" + fields[1] + "\", id: \"" + fields[0] + "\", sd: \"" + fields[2] +
            "\", ed: \"" + fields[3] + "\""
  {
    var t, f := MappingTemplate, fields;
    assert |t| == 9;
    var r8 := "\"";
    assert FormatFrom(t, 8, f) == r8;
    var r7 := f[3] + r8;
    assert FormatFrom(t, 7, f) == r7;
    var r6 := "\", ed: \"" + r7;
    assert FormatFrom(t, 6, f) == r6;
    var r5 := f[2] + r6;
    assert FormatFrom(t, 5, f) == r5;
    var r4 := "\", sd: \"" + r5;
    assert FormatFrom(t, 4, f) == r4;
    var r3 := f[0] + r4;
    assert FormatFrom(t, 3, f) == r3;
    var r2 := "\", id: \"" + r3;
    assert FormatFrom(t, 2, f) == r2;
    var r1 := f[1] + r2;
    assert FormatFrom(t, 1, f) == r1;
    assert FormatFrom(t, 0, f) == "name: \"" + r1;
    Regroup9("name: \"", f[1], "\", id: \"", f[0], "\", sd: \"", f[2], "\", ed: \"", f[3], "\"");
  }

  // The regrouping lemmas below each state that string concatenation is
  // associative, for one shape of expression. They are kept apart so that the
  // proofs that use them never see the literal strings while regrouping, which
  // the solver handles slowly.

  lemma Regroup9(a: string, b: string, c: string, d: string, e: string, g: string, h: string,
                 i: string, j: string)
    ensures a + (b + (c + (d + (e + (g + (h + (i + j))))))) == a + b + c + d + e + g + h + i + j
  {
  }

  // ---------------------------------------------------------------------------
  // One line

  /** A line as reading a text file line by line yields it: a newline, if any, only at its end. */
  predicate IsLine(s: string) {
    s == [] || '\n' !in s[..|s| - 1]
  }

  /** Every field but the last of a line's tab split lies within the line, before its newline. */
  lemma LeadingFieldsOneLine(s: string, k: nat)
    requires IsLine(s) && k < |Split(s, '\t')| - 1
    ensures '\n' !in Split(s, '\t')[k]
  {
    LeadingFieldsAvoid(s, '\t', '\n', k);
  }

  /** A student's details under the names the record form gives them. */
  datatype Student = Student(id: string, name: string, sd: string, ed: string)

  /** Fields 0, 1 and 2 of the split as they are, and field 3 cut at its first newline. */
  function Select(tabsplit: seq<string>): Student
    requires |tabsplit| >= 4
  {
    Student(tabsplit[0], tabsplit[1], tabsplit[2], Split(tabsplit[3], '\n')[0])
  }

  /** The five lines of a blank report in the documented form, without their newlines. */
  function RecordLines(s: Student): seq<string> {
    ["---",
     "- {" + ("name: \"" + s.name + "\", id: \"" + s.id + "\", sd: \"" + s.sd + "\", ed: \"" + s.ed + "\"") + "}",
     "- comment:",
     "- {start: 1, end: 10}",
     "..."]
  }

  /** What the loop writes for a line whose tab split has at least four fields. */
  function Render(tabsplit: seq<string>): string
    requires |tabsplit| >= 4
  {
    var fields := tabsplit[3 := Split(tabsplit[3], '\n')[0]];
    MappingText(fields);
    "---\n" + ("- {" + Format(MappingTemplate, fields) + "}\n") + "- comment:\n" +
    "- {start: 1, end: 10}\n" + "...\n"
  }

  /** Lines, each followed by a newline. */
  function Terminated(ls: seq<string>): string {
    if ls == [] then "" else ls[0] + "\n" + Terminated(ls[1..])
  }

  lemma {:induction false} TerminatedAppend(a: seq<string>, b: seq<string>)
    ensures Terminated(a + b) == Terminated(a) + Terminated(b)
    decreases |a|
  {
    if a == [] {
      assert a + b == b;
    } else {
      assert (a + b)[1..] == a[1..] + b;
      TerminatedAppend(a[1..], b);
    }
  }

  /** Text written as newline-terminated lines reads back as those lines, then an empty rest. */
  lemma {:induction false} SplitTerminated(ls: seq<string>)
    requires forall k :: 0 <= k < |ls| ==> '\n' !in ls[k]
    ensures Split(Terminated(ls), '\n') == ls + [""]
    decreases |ls|
  {
    if ls == [] {
      assert Split("", '\n') == [""];
    } else {
      SplitTerminated(ls[1..]);
      SplitAfter(ls[0], Terminated(ls[1..]), '\n');
      assert Terminated(ls) == ls[0] + ['\n'] + Terminated(ls[1..]);
    }
  }

  lemma TerminatedCons(l: string, ls: seq<string>)
    ensures Terminated([l] + ls) == l + "\n" + Terminated(ls)
  {
    assert ([l] + ls)[1..] == ls;
  }

  /** The three lines after the mapping line, terminated. */
  lemma TrailerTerminated()
    ensures Terminated(["- comment:", "- {start: 1, end: 10}", "..."]) ==
            "- comment:\n" + "- {start: 1, end: 10}\n" + "...\n"
  {
    var ls: seq<string> := ["- comment:", "- {start: 1, end: 10}", "..."];
    TerminatedCons("...", []);
    assert ls[2..] == ["..."] + [];
    TerminatedCons("- {start: 1, end: 10}", ls[2..]);
    assert ls[1..] == ["- {start: 1, end: 10}"] + ls[2..];
    TerminatedCons("- comment:", ls[1..]);
    assert ls == ["- comment:"] + ls[1..];
  }

  lemma Regroup(a: string, b: string, c: string, d: string, e: string)
    ensures a + b + c + d + e == a + (b + (c + d + e))
  {
  }

  /** The writes for one line, grouped as the first line and the rest. */
  lemma RenderGrouped(tabsplit: seq<string>, mapping: string)
    requires |tabsplit| >= 4
    requires mapping == Format(MappingTemplate, tabsplit[3 := Split(tabsplit[3], '\n')[0]])
    ensures Render(tabsplit) == "---\n" + ("- {" + mapping + "}\n" +
            ("- comment:\n" + "- {start: 1, end: 10}\n" + "...\n"))
  {
    Regroup("---\n", "- {" + mapping + "}\n", "- comment:\n", "- {start: 1, end: 10}\n", "...\n");
  }

  /** What the loop writes for one line is the documented record, as five newline-terminated lines. */
  lemma RenderIsRecord(tabsplit: seq<string>)
    requires |tabsplit| >= 4
    ensures Render(tabsplit) == Terminated(RecordLines(Select(tabsplit)))
  {
    var fields := tabsplit[3 := Split(tabsplit[3], '\n')[0]];
    MappingText(fields);
    var mapping := Format(MappingTemplate, fields);
    var line := "- {" + mapping + "}";
    var trailer: seq<string> := ["- comment:", "- {start: 1, end: 10}", "..."];
    assert RecordLines(Select(tabsplit)) == ["---"] + ([line] + trailer);
    TrailerTerminated();
    TerminatedCons(line, trailer);
    TerminatedCons("---", [line] + trailer);
    RenderGrouped(tabsplit, mapping);
    assert "---" + "\n" == "---\n";
    assert line + "\n" == "- {" + mapping + "}\n" by {
      assert "}" + "\n" == "}\n";
    }
  }

  lemma NotInAppend(a: string, b: string, c: char)
    ensures c !in a + b <==> c !in a && c !in b
  {
    if c in a + b {
      var i :| 0 <= i < |a + b| && (a + b)[i] == c;
      if i >= |a| {
        assert b[i - |a|] == c;
      }
    }
  }

  /** None of the record's fixed lines holds a newline. */
  lemma FixedLinesOneLine()
    ensures '\n' !in "---" && '\n' !in "- comment:" && '\n' !in "- {start: 1, end: 10}" && '\n' !in "..."
    ensures '\n' !in "- {" && '\n' !in "}" && '\n' !in "name: \"" && '\n' !in "\", id: \""
    ensures '\n' !in "\", sd: \"" && '\n' !in "\", ed: \"" && '\n' !in "\""
  {
  }

  /** A student whose details hold no newline gets a record of five single lines. */
  lemma RecordLinesOneLine(s: Student)
    requires '\n' !in s.id && '\n' !in s.name && '\n' !in s.sd && '\n' !in s.ed
    ensures |RecordLines(s)| == 5
    ensures forall m :: 0 <= m < 5 ==> '\n' !in RecordLines(s)[m]
  {
    FixedLinesOneLine();
    var n := '\n';
    NotInAppend("name: \"", s.name, n);
    NotInAppend("name: \"" + s.name, "\", id: \"", n);
    NotInAppend("name: \"" + s.name + "\", id: \"", s.id, n);
    NotInAppend("name: \"" + s.name + "\", id: \"" + s.id, "\", sd: \"", n);
    NotInAppend("name: \"" + s.name + "\", id: \"" + s.id + "\", sd: \"", s.sd, n);
    NotInAppend("name: \"" + s.name + "\", id: \"" + s.id + "\", sd: \"" + s.sd, "\", ed: \"", n);
    var m := "name: \"" + s.name + "\", id: \"" + s.id + "\", sd: \"" + s.sd + "\", ed: \"";
    NotInAppend(m, s.ed, n);
    NotInAppend(m + s.ed, "\"", n);
    NotInAppend("- {", m + s.ed + "\"", n);
    NotInAppend("- {" + (m + s.ed + "\""), "}", n);
  }

  /** The details read from a file line hold no newline. */
  lemma SelectOneLine(line: string)
    requires IsLine(line) && |Split(line, '\t')| >= 4
    ensures var s := Select(Split(line, '\t'));
            '\n' !in s.id && '\n' !in s.name && '\n' !in s.sd && '\n' !in s.ed
  {
    LeadingFieldsOneLine(line, 0);
    LeadingFieldsOneLine(line, 1);
    LeadingFieldsOneLine(line, 2);
  }

  /** Fields after the fourth are never read: the record depends only on the first four. */
  lemma RenderReadsFourFields(tabsplit: seq<string>)
    requires |tabsplit| >= 4
    ensures Render(tabsplit) == Render(tabsplit[..4])
  {
    RenderIsRecord(tabsplit);
    RenderIsRecord(tabsplit[..4]);
    assert Select(tabsplit) == Select(tabsplit[..4]);
  }

  /** Each line read from a file, with at least four fields, becomes exactly the five record lines. */
  lemma RecordReadsAsFiveLines(line: string)
    requires IsLine(line) && |Split(line, '\t')| >= 4
    ensures Split(Render(Split(line, '\t')), '\n') == RecordLines(Select(Split(line, '\t'))) + [""]
  {
    var f := Split(line, '\t');
    SelectOneLine(line);
    RecordLinesOneLine(Select(f));
    RenderIsRecord(f);
    SplitTerminated(RecordLines(Select(f)));
  }

  // ---------------------------------------------------------------------------
  // All the lines

  /** What one input line turns into: its record, or None when its fields run out. */
  function Block(line: string): Option<string> {
    var tabsplit := Split(line, '\t');
    if |tabsplit| < 4 then None else Some(Render(tabsplit))
  }

  function Blocks(lines: seq<string>): (bs: seq<Option<string>>)
    ensures |bs| == |lines|
  {
    seq(|lines|, k requires 0 <= k < |lines| => Block(lines[k]))
  }

  /** The text written so far, and the line whose fields ran out, if one did. */
  datatype Conversion = Conversion(text: string, failedAt: Option<nat>)

  /**
   * Writing the blocks in order: a line whose fields ran out has had its `---`
   * written when IndexError is raised, and nothing after it is written.
   */
  function Until(blocks: seq<Option<string>>): Conversion
    decreases |blocks|
  {
    if blocks == [] then Conversion("", None)
    else if blocks[0].None? then Conversion("---\n", Some(0))
    else
      var rest := Until(blocks[1..]);
      Conversion(blocks[0].value + rest.text, if rest.failedAt.None? then None else Some(rest.failedAt.value + 1))
  }

  /** The conversion of a file's lines. */
  function Reports(lines: seq<string>): Conversion {
    Until(Blocks(lines))
  }

  /** One more block after blocks that all went through. */
  lemma {:induction false} UntilSnoc(blocks: seq<Option<string>>, b: Option<string>)
    requires Until(blocks).failedAt == None
    ensures b.None? ==> Until(blocks + [b]) == Conversion(Until(blocks).text + "---\n", Some(|blocks|))
    ensures b.Some? ==> Until(blocks + [b]) == Conversion(Until(blocks).text + b.value, None)
    decreases |blocks|
  {
    if blocks == [] {
      assert [] + [b] == [b];
    } else {
      assert (blocks + [b])[0] == blocks[0] && (blocks + [b])[1..] == blocks[1..] + [b];
      UntilSnoc(blocks[1..], b);
      var last := if b.None? then "---\n" else b.value;
      Regroup3(blocks[0].value, Until(blocks[1..]).text, last);
    }
  }

  lemma Regroup3(a: string, b: string, c: string)
    ensures a + (b + c) == a + b + c
  {
  }

  /** Once a block has failed, the blocks after it change nothing. */
  lemma {:induction false} UntilStops(blocks: seq<Option<string>>, k: nat)
    requires k <= |blocks| && Until(blocks[..k]).failedAt.Some?
    ensures Until(blocks) == Until(blocks[..k])
    decreases k
  {
    assert k > 0;
    assert blocks[..k][0] == blocks[0] && blocks[..k][1..] == blocks[1..][..k - 1];
    if blocks[0].Some? {
      UntilStops(blocks[1..], k - 1);
    }
  }

  /** The conversion fails exactly when some block does. */
  lemma {:induction false} UntilComplete(blocks: seq<Option<string>>)
    ensures Until(blocks).failedAt == None <==> forall k :: 0 <= k < |blocks| ==> blocks[k].Some?
    decreases |blocks|
  {
    if blocks != [] {
      UntilComplete(blocks[1..]);
      assert forall k :: 1 <= k < |blocks| ==> blocks[k] == blocks[1..][k - 1];
    }
  }

  /** The first failing block ends the text with its `---`. */
  lemma UntilFailAt(blocks: seq<Option<string>>, k: nat)
    requires k < |blocks| && blocks[k].None?
    requires forall n :: 0 <= n < k ==> blocks[n].Some?
    ensures Until(blocks) == Conversion(Until(blocks[..k]).text + "---\n", Some(k))
  {
    UntilComplete(blocks[..k]);
    UntilSnoc(blocks[..k], blocks[k]);
    assert blocks[..k] + [blocks[k]] == blocks[..k + 1];
    UntilStops(blocks, k + 1);
  }

  /** Blocks that are all records write those records, one after another. */
  lemma {:induction false} UntilRecords(blocks: seq<Option<string>>, records: seq<seq<string>>)
    requires |blocks| == |records|
    requires forall i :: 0 <= i < |blocks| ==> blocks[i] == Some(Terminated(records[i]))
    ensures Until(blocks) == Conversion(Terminated(Flatten(records)), None)
    decreases |blocks|
  {
    if blocks != [] {
      UntilRecords(blocks[1..], records[1..]);
      TerminatedAppend(records[0], Flatten(records[1..]));
    }
  }

  lemma BlocksPrefix(lines: seq<string>, n: nat)
    requires n <= |lines|
    ensures Blocks(lines[..n]) == Blocks(lines)[..n]
  {
  }

  /** A line yields a record exactly when it has at least three tabs. */
  lemma BlockPresent(line: string)
    ensures Block(line).Some? <==> Count(line, '\t') >= 3
  {
    SplitLength(line, '\t');
  }

  /** The conversion runs to the end exactly when every line has at least three tabs. */
  lemma ReportsComplete(lines: seq<string>)
    ensures Reports(lines).failedAt == None <==>
            forall k :: 0 <= k < |lines| ==> Count(lines[k], '\t') >= 3
  {
    UntilComplete(Blocks(lines));
    forall k | 0 <= k < |lines| ensures Blocks(lines)[k].Some? <==> Count(lines[k], '\t') >= 3 {
      BlockPresent(lines[k]);
    }
  }

  /**
   * The first line with fewer than three tabs stops the conversion: the
   * records before it are written, then its `---`, and nothing after.
   */
  lemma ReportsFailAt(lines: seq<string>, k: nat)
    requires k < |lines| && Count(lines[k], '\t') < 3
    requires forall n :: 0 <= n < k ==> Count(lines[n], '\t') >= 3
    ensures Reports(lines) == Conversion(Reports(lines[..k]).text + "---\n", Some(k))
  {
    var bs := Blocks(lines);
    forall n | 0 <= n < k ensures bs[n].Some? {
      BlockPresent(lines[n]);
    }
    BlockPresent(lines[k]);
    UntilFailAt(bs, k);
    BlocksPrefix(lines, k);
  }

  /** The lines of each record in turn. */
  function Flatten(records: seq<seq<string>>): seq<string> {
    if records == [] then [] else records[0] + Flatten(records[1..])
  }

  /** With every record five lines long, line m of record k is line 5k+m of them all. */
  lemma {:induction false} FlattenAt(records: seq<seq<string>>, k: nat, m: nat)
    requires forall i :: 0 <= i < |records| ==> |records[i]| == 5
    requires k < |records| && m < 5
    ensures |Flatten(records)| == 5 * |records|
    ensures Flatten(records)[5 * k + m] == records[k][m]
    decreases |records|
  {
    if k == 0 {
      if |records| > 1 {
        FlattenAt(records[1..], 0, m);
      } else {
        assert Flatten(records[1..]) == [];
      }
    } else {
      FlattenAt(records[1..], k - 1, m);
    }
  }

  lemma {:induction false} FlattenOneLine(records: seq<seq<string>>)
    requires forall i, m :: 0 <= i < |records| && 0 <= m < |records[i]| ==> '\n' !in records[i][m]
    ensures forall n :: 0 <= n < |Flatten(records)| ==> '\n' !in Flatten(records)[n]
    decreases |records|
  {
    if records != [] {
      FlattenOneLine(records[1..]);
      assert forall i, m :: 1 <= i < |records| && 0 <= m < |records[i]| ==> records[i][m] == records[1..][i - 1][m];
      forall n | 0 <= n < |Flatten(records)| ensures '\n' !in Flatten(records)[n] {
        if n >= |records[0]| {
          assert Flatten(records)[n] == Flatten(records[1..])[n - |records[0]|];
        } else {
          assert Flatten(records)[n] == records[0][n];
        }
      }
    }
  }

  /** The documented records of the lines, in input order. */
  function Records(lines: seq<string>): (rs: seq<seq<string>>)
    requires forall k :: 0 <= k < |lines| ==> |Split(lines[k], '\t')| >= 4
    ensures |rs| == |lines|
  {
    seq(|lines|, k requires 0 <= k < |lines| && |Split(lines[k], '\t')| >= 4 => RecordLines(Select(Split(lines[k], '\t'))))
  }

  /** With every line holding four fields, the output is the records' lines, each newline-terminated. */
  lemma ReportsText(lines: seq<string>)
    requires forall k :: 0 <= k < |lines| ==> |Split(lines[k], '\t')| >= 4
    ensures Reports(lines) == Conversion(Terminated(Flatten(Records(lines))), None)
  {
    var bs, rs := Blocks(lines), Records(lines);
    forall i | 0 <= i < |bs| ensures bs[i] == Some(Terminated(rs[i])) {
      RenderIsRecord(Split(lines[i], '\t'));
    }
    UntilRecords(bs, rs);
  }

  /**
   * Lines read from a file, each with four fields, turn into text that reads
   * back, line by line, as the documented records: line m of record k is
   * line 5k+m of the output.
   */
  lemma ReportsReadAsRecords(lines: seq<string>, k: nat, m: nat)
    requires forall n :: 0 <= n < |lines| ==> IsLine(lines[n]) && |Split(lines[n], '\t')| >= 4
    requires k < |lines| && m < 5
    ensures Reports(lines).failedAt == None
    ensures Split(Reports(lines).text, '\n') == Flatten(Records(lines)) + [""]
    ensures |Split(Reports(lines).text, '\n')| == 5 * |lines| + 1
    ensures Split(Reports(lines).text, '\n')[5 * k + m] == RecordLines(Select(Split(lines[k], '\t')))[m]
  {
    var rs := Records(lines);
    forall i | 0 <= i < |rs|
      ensures |rs[i]| == 5 && forall m :: 0 <= m < 5 ==> '\n' !in rs[i][m]
    {
      SelectOneLine(lines[i]);
      RecordLinesOneLine(Select(Split(lines[i], '\t')));
    }
    ReportsText(lines);
    FlattenOneLine(rs);
    SplitTerminated(Flatten(rs));
    FlattenAt(rs, k, m);
  }

  /** The loop's writes for one line, appended to the text so far, are that line's rendering. */
  lemma WritesRender(before: string, tabsplit: seq<string>, mapinternal: string)
    requires |tabsplit| >= 4
    requires mapinternal == Format(MappingTemplate, tabsplit[3 := Split(tabsplit[3], '\n')[0]])
    ensures before + "---\n" + ("- {" + mapinternal + "}\n") + "- comment:\n" + "- {start: 1, end: 10}\n" +
            "...\n" == before + Render(tabsplit)
  {
    Appended(before, "---\n", "- {" + mapinternal + "}\n", "- comment:\n", "- {start: 1, end: 10}\n", "...\n");
  }

  /** One turn of the loop, after the blocks before it went through. */
  lemma UntilStep(blocks: seq<Option<string>>, n: nat, before: string)
    requires n < |blocks| && Until(blocks[..n]) == Conversion(before, None)
    ensures blocks[n].Some? ==> Until(blocks[..n + 1]) == Conversion(before + blocks[n].value, None)
    ensures blocks[n].None? ==> Until(blocks) == Conversion(before + "---\n", Some(n))
  {
    var b := blocks[n];
    assert blocks[..n] + [b] == blocks[..n + 1];
    UntilSnoc(blocks[..n], b);
    if b.None? {
      UntilStops(blocks, n + 1);
    }
  }

  lemma Appended(x: string, a: string, b: string, c: string, d: string, e: string)
    ensures x + a + b + c + d + e == x + (a + b + c + d + e)
  {
  }

  /** The conversion loop: for each line, `---`, then the rest of its record. */
  method MakeReports(lines: seq<string>) returns (text: string, failedAt: Option<nat>)
    ensures Conversion(text, failedAt) == Reports(lines)
  {
    text := "";
    failedAt := None;
    for n := 0 to |lines|
      invariant Until(Blocks(lines)[..n]) == Conversion(text, None)
    {
      UntilStep(Blocks(lines), n, text);
      ghost var before := text;
      var tabsplit := Split(lines[n], '\t');
      ghost var original := tabsplit;
      text := text + "---\n";
      if |tabsplit| < 4 {
        // Reading a field that is not there (field 1, 2 or 3) raises IndexError.
        failedAt := Some(n);
        return;
      }
      tabsplit := tabsplit[3 := Split(tabsplit[3], '\n')[0]];
      MappingText(tabsplit);
      var mapinternal := Format(MappingTemplate, tabsplit);
      text := text + ("- {" + mapinternal + "}\n");
      text := text + "- comment:\n";
      text := text + "- {start: 1, end: 10}\n";
      text := text + "...\n";
      WritesRender(before, original, mapinternal);
    }
    assert Blocks(lines)[..|lines|] == Blocks(lines);
  }
}
