/** Comma-separated record lines. The service writes a record as
    `",".join(fields).ljust(500) + "\n"` (or an f-string with commas between
    the fields), reads a data file back in text mode with `readlines()` and
    turns every line into fields with `line.strip().split(",")`. There is no
    escaping: a comma inside a field becomes a field boundary, a line break
    inside a field starts another line, and blanks at either end of a line
    are cut. */
module Fields {

  predicate NoComma(field: string) {
    ',' !in field
  }

  predicate AllNoComma(fields: seq<string>) {
    forall i :: 0 <= i < |fields| ==> NoComma(fields[i])
  }

  /** A character Python counts as whitespace, which `str.strip()` cuts. */
  predicate IsBlank(c: char) {
    || c == ' ' || '\t' <= c <= '\r' || '\U{1c}' <= c <= '\U{1f}'
    || c == '\U{85}' || c == '\U{a0}' || c == '\U{1680}' || '\U{2000}' <= c <= '\U{200a}'
    || c == '\U{2028}' || c == '\U{2029}' || c == '\U{202f}' || c == '\U{205f}' || c == '\U{3000}'
  }

  /** A character that ends a line when a file is read in text mode
      (`\n`, `\r`, and `\r\n` taken together). */
  predicate IsBreak(c: char) {
    c == '\n' || c == '\r'
  }

  predicate OnOneLine(text: string) {
    forall i :: 0 <= i < |text| ==> !IsBreak(text[i])
  }

  predicate AllOnOneLine(fields: seq<string>) {
    forall i :: 0 <= i < |fields| ==> OnOneLine(fields[i])
  }

  /** No blank at the start, where `strip()` would cut one. */
  predicate LeadTrimmed(text: string) {
    |text| == 0 || !IsBlank(text[0])
  }

  /** No blank at the end, where `strip()` would cut one. */
  predicate TailTrimmed(text: string) {
    |text| == 0 || !IsBlank(text[|text| - 1])
  }

  /** A field that comes back unchanged as the first field of its line
      whenever another field follows it. */
  predicate KeyField(field: string) {
    NoComma(field) && OnOneLine(field) && LeadTrimmed(field)
  }

  /** What `line.strip().split(",")` returns for a line of a data file: at
      least one field, no comma and no line break in any of them, and no
      blank at either end of the line. */
  predicate IsLine(fields: seq<string>) {
    && |fields| >= 1
    && AllNoComma(fields)
    && AllOnOneLine(fields)
    && LeadTrimmed(fields[0])
    && TailTrimmed(fields[|fields| - 1])
  }

  type Line = fields: seq<string> | IsLine(fields) witness [""]

  /** Python's `s.split(",")`. */
  function Split(s: string): (r: seq<string>)
    ensures |r| >= 1 && AllNoComma(r)
    decreases |s|
  {
    if |s| == 0 then [""]
    else
      var rest := Split(s[1..]);
      if s[0] == ',' then [""] + rest
      else
        assert NoComma([s[0]] + rest[0]);
        [[s[0]] + rest[0]] + rest[1..]
  }

  /** Python's `",".join(fields)`. */
  function Join(fields: seq<string>): string
    decreases |fields|
  {
    if |fields| == 0 then ""
    else if |fields| == 1 then fields[0]
    else fields[0] + "," + Join(fields[1..])
  }

  /** `str.lstrip()`: what is left once the leading blanks are cut. */
  function StripStart(s: string): (r: string)
    ensures |r| <= |s| && r == s[|s| - |r|..] && LeadTrimmed(r)
    ensures forall k :: 0 <= k < |s| - |r| ==> IsBlank(s[k])
    decreases |s|
  {
    if |s| > 0 && IsBlank(s[0]) then StripStart(s[1..]) else s
  }

  /** `str.rstrip()`: what is left once the trailing blanks are cut. */
  function StripEnd(s: string): (r: string)
    ensures |r| <= |s| && r == s[..|r|] && TailTrimmed(r)
    ensures forall k :: |r| <= k < |s| ==> IsBlank(s[k])
    decreases |s|
  {
    if |s| > 0 && IsBlank(s[|s| - 1]) then StripEnd(s[..|s| - 1]) else s
  }

  /** `str.strip()`. */
  function Strip(s: string): (r: string)
    ensures LeadTrimmed(r) && TailTrimmed(r)
    ensures OnOneLine(s) ==> OnOneLine(r)
  {
    StripEnd(StripStart(s))
  }

  /** The lines `readlines()` finds in a text read in text mode, each without
      its line break: `\n`, `\r` and `\r\n` each end a line, and text after
      the last break is one more line. */
  function TextLines(t: string): (r: seq<string>)
    ensures |t| > 0 ==> |r| >= 1
    decreases |t|
  {
    if |t| == 0 then []
    else if t[0] == '\r' && |t| > 1 && t[1] == '\n' then [""] + TextLines(t[2..])
    else if IsBreak(t[0]) then [""] + TextLines(t[1..])
    else
      var rest := TextLines(t[1..]);
      if |rest| == 0 then [[t[0]]] else [[t[0]] + rest[0]] + rest[1..]
  }

  /** The width `ljust` pads a written data line to. */
  const RecordWidth := 500

  function Spaces(n: nat): (r: string)
    ensures |r| == n && forall k :: 0 <= k < n ==> r[k] == ' '
  {
    seq(n, _ => ' ')
  }

  /** `text.ljust(500)`. */
  function Padded(text: string): (r: string)
    ensures |r| == (if |text| < RecordWidth then RecordWidth else |text|) && r[..|text|] == text
    ensures forall k :: |text| <= k < |r| ==> r[k] == ' '
  {
    text + Spaces(if |text| < RecordWidth then RecordWidth - |text| else 0)
  }

  /** The text a record is written as: `",".join(fields).ljust(500) + "\n"`. */
  function RecordText(fields: seq<string>): string {
    Padded(Join(fields)) + "\n"
  }

  /** One line of a data file as the service reads it: `line.strip().split(",")`. */
  function ReadLine(text: string): Line
    requires OnOneLine(text)
  {
    var t := Strip(text);
    SplitIsLine(t);
    Split(t)
  }

  /** The lines a written record reads back as: one for every line of its
      text. Every write of the model goes through this. */
  function Store(fields: seq<string>): (r: seq<Line>)
    ensures |r| >= 1
  {
    var texts := TextLines(RecordText(fields));
    TextLinesBreakFree(RecordText(fields));
    seq(|texts|, i requires 0 <= i < |texts| => ReadLine(texts[i]))
  }

  /** No line `readlines()` finds holds a line break. */
  lemma {:induction false} TextLinesBreakFree(t: string)
    ensures AllOnOneLine(TextLines(t))
    decreases |t|
  {
    if |t| > 0 {
      if t[0] == '\r' && |t| > 1 && t[1] == '\n' {
        TextLinesBreakFree(t[2..]);
      } else {
        TextLinesBreakFree(t[1..]);
        var rest := TextLines(t[1..]);
        if !IsBreak(t[0]) && |rest| > 0 {
          assert OnOneLine(rest[0]);
          assert OnOneLine([t[0]] + rest[0]);
        }
      }
    }
  }

  /** Splitting text that starts with a comma-free run extends the first field only. */
  lemma {:induction false} SplitPrefix(a: string, t: string)
    requires NoComma(a)
    ensures Split(a + t) == [a + Split(t)[0]] + Split(t)[1..]
    decreases |a|
  {
    if |a| > 0 {
      assert (a + t)[1..] == a[1..] + t;
      assert (a + t)[0] == a[0];
      SplitPrefix(a[1..], t);
      assert [a[0]] + (a[1..] + Split(t)[0]) == a + Split(t)[0];
    } else {
      assert a + t == t;
      assert a + Split(t)[0] == Split(t)[0];
      assert Split(t) == [Split(t)[0]] + Split(t)[1..];
    }
  }

  /** Joining comma-free fields and splitting again recovers them. */
  lemma {:induction false} SplitJoin(fields: seq<string>)
    requires |fields| >= 1 && AllNoComma(fields)
    ensures Split(Join(fields)) == fields
    decreases |fields|
  {
    if |fields| == 1 {
      SplitPrefix(fields[0], "");
      assert fields[0] + "" == fields[0];
    } else {
      var rest := fields[1..];
      assert AllNoComma(rest);
      SplitJoin(rest);
      var t := "," + Join(rest);
      assert Join(fields) == fields[0] + t;
      SplitPrefix(fields[0], t);
      assert t[1..] == Join(rest);
      assert Split(t) == [""] + rest;
      assert fields[0] + "" == fields[0];
      assert fields == [fields[0]] + rest;
    }
  }

  /** Splitting and joining again recovers the text. */
  lemma {:induction false} JoinSplit(s: string)
    ensures Join(Split(s)) == s
    decreases |s|
  {
    if |s| > 0 {
      JoinSplit(s[1..]);
      var rest := Split(s[1..]);
      if s[0] == ',' {
        assert Join([""] + rest) == "" + "," + Join(rest);
      } else {
        var r := [[s[0]] + rest[0]] + rest[1..];
        if |rest| == 1 {
          assert Join(r) == [s[0]] + rest[0];
        } else {
          assert r[1..] == rest[1..];
          assert Join(r) == [s[0]] + rest[0] + "," + Join(rest[1..]);
        }
        assert Join(rest) == s[1..];
        assert [s[0]] + s[1..] == s;
      }
    }
  }

  lemma OnOneLineConcat(a: string, b: string)
    ensures OnOneLine(a + b) <==> OnOneLine(a) && OnOneLine(b)
  {
    if OnOneLine(a) && OnOneLine(b) {
      forall i | 0 <= i < |a + b|
        ensures !IsBreak((a + b)[i])
      {
        if i >= |a| {
          assert (a + b)[i] == b[i - |a|];
        }
      }
    }
    if OnOneLine(a + b) {
      forall i | 0 <= i < |b|
        ensures !IsBreak(b[i])
      {
        assert b[i] == (a + b)[|a| + i];
      }
      forall i | 0 <= i < |a|
        ensures !IsBreak(a[i])
      {
        assert a[i] == (a + b)[i];
      }
    }
  }

  /** The joined text holds a line break exactly when one of the fields does. */
  lemma {:induction false} JoinOnOneLine(fields: seq<string>)
    ensures OnOneLine(Join(fields)) <==> AllOnOneLine(fields)
    decreases |fields|
  {
    if |fields| > 1 {
      var rest := fields[1..];
      JoinOnOneLine(rest);
      OnOneLineConcat(fields[0], "," + Join(rest));
      OnOneLineConcat(",", Join(rest));
      assert Join(fields) == fields[0] + ("," + Join(rest));
      assert AllOnOneLine(fields) <==> OnOneLine(fields[0]) && AllOnOneLine(rest) by {
        if OnOneLine(fields[0]) && AllOnOneLine(rest) {
          forall i | 0 <= i < |fields|
            ensures OnOneLine(fields[i])
          {
            if i > 0 {
              assert fields[i] == rest[i - 1];
            }
          }
        }
      }
    }
  }

  /** The joined text ends with the last field, after a comma when there are several. */
  lemma {:induction false} JoinLast(fields: seq<string>)
    requires |fields| >= 1
    ensures var j, l := Join(fields), fields[|fields| - 1];
      && |j| >= |l| && j[|j| - |l|..] == l
      && (|fields| > 1 ==> |j| > |l| && j[|j| - |l| - 1] == ',')
    decreases |fields|
  {
    if |fields| > 1 {
      var rest := fields[1..];
      JoinLast(rest);
      var j, jr, l := Join(fields), Join(rest), fields[|fields| - 1];
      assert rest[|rest| - 1] == l;
      assert j == fields[0] + "," + jr;
      assert j[|j| - |jr|..] == jr;
      assert j[|j| - |l|..] == jr[|jr| - |l|..];
      if |rest| == 1 {
        assert j[|j| - |l| - 1] == ',';
      } else {
        assert j[|j| - |l| - 1] == jr[|jr| - |l| - 1];
      }
    }
  }

  /** The joined text starts with a blank exactly when the first field does. */
  lemma JoinLead(fields: seq<string>)
    requires |fields| >= 1
    ensures LeadTrimmed(Join(fields)) <==> LeadTrimmed(fields[0])
  {
    var j := Join(fields);
    if |fields| > 1 {
      assert j == fields[0] + "," + Join(fields[1..]);
      if |fields[0]| > 0 {
        assert j[0] == fields[0][0];
      } else {
        assert j[0] == ',';
      }
    }
  }

  /** The joined text ends with a blank exactly when the last field does. */
  lemma JoinTail(fields: seq<string>)
    requires |fields| >= 1
    ensures TailTrimmed(Join(fields)) <==> TailTrimmed(fields[|fields| - 1])
  {
    var j, l := Join(fields), fields[|fields| - 1];
    JoinLast(fields);
    if |l| > 0 {
      assert j[|j| - 1] == l[|l| - 1];
    } else if |fields| > 1 {
      assert j[|j| - 1] == ',';
    }
  }

  /** Splitting a line's text that has no break and no blank at its ends gives a `Line`. */
  lemma SplitIsLine(s: string)
    requires OnOneLine(s) && LeadTrimmed(s) && TailTrimmed(s)
    ensures IsLine(Split(s))
  {
    var r := Split(s);
    JoinSplit(s);
    JoinOnOneLine(r);
    JoinLead(r);
    JoinTail(r);
  }

  /** `readlines()` on `a + t` for a break-free `a`: `a` joins the first line of `t`. */
  lemma {:induction false} TextLinesPrefix(a: string, t: string)
    requires OnOneLine(a) && |t| > 0
    ensures TextLines(a + t) == [a + TextLines(t)[0]] + TextLines(t)[1..]
    decreases |a|
  {
    if |a| > 0 {
      assert (a + t)[0] == a[0] && !IsBreak(a[0]);
      assert (a + t)[1..] == a[1..] + t;
      var rest := TextLines(a[1..] + t);
      assert TextLines(a + t) == [[a[0]] + rest[0]] + rest[1..];
      TextLinesPrefix(a[1..], t);
      assert [a[0]] + (a[1..] + TextLines(t)[0]) == a + TextLines(t)[0];
    } else {
      assert a + t == t;
      assert a + TextLines(t)[0] == TextLines(t)[0];
      assert TextLines(t) == [TextLines(t)[0]] + TextLines(t)[1..];
    }
  }

  /** Break-free text written with one line ending reads back as one line. */
  lemma TextLinesOfLine(u: string)
    requires OnOneLine(u)
    ensures TextLines(u + "\n") == [u]
  {
    TextLinesPrefix(u, "\n");
    assert TextLines("\n") == [""] + TextLines("");
    assert u + "" == u;
  }

  /** Padding text with no blank at its ends and stripping it again gives the text back. */
  lemma StripPadded(j: string)
    requires LeadTrimmed(j) && TailTrimmed(j)
    ensures Strip(Padded(j)) == j
  {
    var p := Padded(j);
    if |j| > 0 {
      assert p[0] == j[0];
      assert StripStart(p) == p;
      var b := StripEnd(p);
      assert p[|j| - 1] == j[|j| - 1] && !IsBlank(p[|j| - 1]);
      assert |b| >= |j|;
      assert b[|b| - 1] == p[|b| - 1] && !IsBlank(p[|b| - 1]);
      assert |b| <= |j|;
      assert b == p[..|j|];
    }
  }

  /** Stripping text that starts with a field and a comma keeps them both,
      so splitting it gives that field first. */
  lemma StripKeepsHead(a: string, w: string)
    requires NoComma(a) && LeadTrimmed(a)
    ensures Split(Strip(a + "," + w))[0] == a
  {
    var x := a + "," + w;
    assert x[|a|] == ',';
    assert !IsBlank(x[0]) by {
      if |a| > 0 {
        assert x[0] == a[0];
      }
    }
    assert StripStart(x) == x;
    var t := StripEnd(x);
    assert |t| > |a|;
    assert t[..|a| + 1] == x[..|a| + 1];
    assert t == a + t[|a|..];
    SplitPrefix(a, t[|a|..]);
    assert t[|a|..][0] == ',';
  }

  /** The first line of text that starts with a key field and a comma reads
      back with that field first. */
  lemma FirstLineHead(a: string, w: string)
    requires KeyField(a) && |w| > 0
    ensures |TextLines(a + ("," + w))| >= 1
    ensures OnOneLine(TextLines(a + ("," + w))[0]) && ReadLine(TextLines(a + ("," + w))[0])[0] == a
  {
    var x := a + ("," + w);
    TextLinesBreakFree(x);
    TextLinesPrefix(a, "," + w);
    TextLinesPrefix(",", w);
    var rest := TextLines(w)[0];
    assert TextLines("," + w)[0] == "," + rest;
    var line := TextLines(x)[0];
    assert line == a + ("," + rest);
    assert line == a + "," + rest;
    assert OnOneLine(line);
    assert ReadLine(line) == Split(Strip(line));
    StripKeepsHead(a, rest);
  }

  /** A record with no line break in any field is written as exactly one line. */
  lemma StoreOneLine(fields: seq<string>)
    requires AllOnOneLine(fields)
    ensures |Store(fields)| == 1
  {
    var j := Join(fields);
    JoinOnOneLine(fields);
    var pad := Padded(j)[|j|..];
    assert Padded(j) == j + pad;
    OnOneLineConcat(j, pad);
    TextLinesOfLine(Padded(j));
  }

  /** The text of a clean line has no line break and no blank at its ends. */
  lemma JoinOfLine(fields: seq<string>)
    requires IsLine(fields)
    ensures var j := Join(fields); OnOneLine(j) && LeadTrimmed(j) && TailTrimmed(j)
  {
    JoinOnOneLine(fields);
    JoinLead(fields);
    JoinTail(fields);
  }

  /** A field list that is already a clean line reads back unchanged, as one line. */
  lemma StoreKeeps(fields: seq<string>)
    requires IsLine(fields)
    ensures Store(fields) == [fields]
  {
    var j := Join(fields);
    JoinOfLine(fields);
    var pad := Padded(j)[|j|..];
    assert Padded(j) == j + pad;
    OnOneLineConcat(j, pad);
    TextLinesOfLine(Padded(j));
    StripPadded(j);
    SplitJoin(fields);
  }

  /** The first field of the first line written comes back unchanged when it
      holds no comma, no line break and no leading blank (and, standing
      alone, no trailing blank), whatever the other fields hold. */
  lemma StoreHead(fields: seq<string>)
    requires |fields| >= 1 && KeyField(fields[0])
    requires |fields| == 1 ==> TailTrimmed(fields[0])
    ensures Store(fields)[0][0] == fields[0]
  {
    if |fields| == 1 {
      StoreKeeps(fields);
    } else {
      var j := Join(fields);
      var pad := Padded(j)[|j|..];
      assert Padded(j) == j + pad;
      var w := Join(fields[1..]) + pad + "\n";
      assert RecordText(fields) == fields[0] + ("," + w);
      FirstLineHead(fields[0], w);
    }
  }
}
