/**
  The C array serialiser of the generator (`printCUInt32Array`,
  `printCFloat32Array`, `printHUInt32Array`, `printHFloat32Array`).

  A definition is a header line `<ctype> <name>[<len>]={`, then the element
  strings wrapped greedily at `COLLIM` columns, then `};` and an empty line.
  The wrapping is specified by `Layout`, the list of body lines, each a list
  of element strings; the printing loop is proved to produce exactly the
  lines of `Layout` joined by newlines.
 */
module ArrayText {
  import opened Decimal

  /** Column limit of the body lines. */
  const COLLIM: nat := 80

  /** The element strings written one after the other. */
  function Concat(vals: seq<string>): string
  {
    if vals == [] then "" else Concat(vals[..|vals| - 1]) + vals[|vals| - 1]
  }

  /** The elements of a layout, line after line. */
  function Flatten(lines: seq<seq<string>>): seq<string>
  {
    if lines == [] then [] else Flatten(lines[..|lines| - 1]) + lines[|lines| - 1]
  }

  /** The text of a layout: each line's elements, lines separated by a newline. */
  function JoinLines(lines: seq<seq<string>>): string
  {
    if lines == [] then ""
    else if |lines| == 1 then Concat(lines[0])
    else JoinLines(lines[..|lines| - 1]) + "\n" + Concat(lines[|lines| - 1])
  }

  /** Whether placing `v` after a line of `nb` characters forces a line break. */
  predicate BreaksBefore(nb: nat, v: string)
  {
    nb + |v| > COLLIM
  }

  /**
    One step of the greedy wrap: `v` is appended to the current (last) line
    unless that would take it past `COLLIM` characters, in which case `v`
    starts a new line.
   */
  function Place(lines: seq<seq<string>>, v: string): (r: seq<seq<string>>)
    requires lines != []
    ensures |r| == |lines| || |r| == |lines| + 1
    ensures |r| == |lines| + 1 <==> BreaksBefore(|Concat(lines[|lines| - 1])|, v)
    ensures r[..|lines| - 1] == lines[..|lines| - 1]
    ensures |r| == |lines| + 1 ==> r[|lines| - 1] == lines[|lines| - 1] && r[|lines|] == [v]
    ensures |r| == |lines| ==> r[|lines| - 1] == lines[|lines| - 1] + [v]
  {
    var last := lines[|lines| - 1];
    if BreaksBefore(|Concat(last)|, v) then lines + [[v]]
    else lines[..|lines| - 1] + [last + [v]]
  }

  /** The body lines the serialiser produces for `vals`; the first line may stay empty. */
  function Layout(vals: seq<string>): (lines: seq<seq<string>>)
    ensures lines != []
  {
    if vals == [] then [[]] else Place(Layout(vals[..|vals| - 1]), vals[|vals| - 1])
  }

  /** The layout has at most one line per element besides the first line. */
  lemma {:induction false} LayoutLineCount(vals: seq<string>)
    ensures |Layout(vals)| <= |vals| + 1
  {
    if vals != [] {
      LayoutLineCount(vals[..|vals| - 1]);
    }
  }

  /** A line that is too long for `COLLIM` columns holds a single element. */
  predicate LineFits(line: seq<string>)
  {
    |Concat(line)| <= COLLIM
  }

  /**
    The shape of every greedy layout:
    - the first line fits, and every later line is non-empty and fits
      unless it holds a single element;
    - each later line starts with an element that would not have fitted on
      the line before it.
   */
  predicate WellWrapped(lines: seq<seq<string>>)
  {
    && lines != []
    && LineFits(lines[0])
    && (forall i :: 1 <= i < |lines| ==> lines[i] != [] && (|lines[i]| == 1 || LineFits(lines[i])))
    && (forall i :: 1 <= i < |lines| ==> lines[i] != [] && BreaksBefore(|Concat(lines[i - 1])|, lines[i][0]))
  }

  lemma ConcatAppend(vals: seq<string>, v: string)
    ensures Concat(vals + [v]) == Concat(vals) + v
  {
    assert (vals + [v])[..|vals|] == vals;
  }

  lemma {:induction false} ConcatSplit(a: seq<string>, b: seq<string>)
    ensures Concat(a + b) == Concat(a) + Concat(b)
    decreases |b|
  {
    if b == [] {
      assert a + b == a;
    } else {
      var b' := b[..|b| - 1];
      assert a + b == (a + b') + [b[|b| - 1]];
      ConcatAppend(a + b', b[|b| - 1]);
      ConcatSplit(a, b');
      assert b == b' + [b[|b| - 1]];
      ConcatAppend(b', b[|b| - 1]);
    }
  }

  lemma FlattenAppend(lines: seq<seq<string>>, line: seq<string>)
    ensures Flatten(lines + [line]) == Flatten(lines) + line
  {
    assert (lines + [line])[..|lines|] == lines;
  }

  /** Placing an element adds it at the end of the flattened layout. */
  lemma FlattenPlace(lines: seq<seq<string>>, v: string)
    requires lines != []
    ensures Flatten(Place(lines, v)) == Flatten(lines) + [v]
  {
    var init := lines[..|lines| - 1];
    var last := lines[|lines| - 1];
    assert lines == init + [last];
    FlattenAppend(init, last);
    if BreaksBefore(|Concat(last)|, v) {
      FlattenAppend(lines, [v]);
    } else {
      FlattenAppend(init, last + [v]);
    }
  }

  /** Placing an element writes it at the end of the text, after a newline exactly when it breaks the line. */
  lemma JoinPlace(lines: seq<seq<string>>, v: string)
    requires lines != []
    ensures JoinLines(Place(lines, v)) ==
            JoinLines(lines) + (if BreaksBefore(|Concat(lines[|lines| - 1])|, v) then "\n" + v else v)
  {
    var init := lines[..|lines| - 1];
    var last := lines[|lines| - 1];
    if BreaksBefore(|Concat(last)|, v) {
      var r := lines + [[v]];
      assert r[..|r| - 1] == lines;
      ConcatAppend([], v);
      assert [] + [v] == [v];
    } else {
      var r := init + [last + [v]];
      assert r[..|r| - 1] == init;
      ConcatAppend(last, v);
      if |lines| > 1 {
        assert lines[..|lines| - 1] == init;
      }
    }
  }

  /** Every element is placed once and in order: the layout's lines, read one after the other, are `vals`. */
  lemma {:induction false} LayoutFlatten(vals: seq<string>)
    ensures Flatten(Layout(vals)) == vals
  {
    if vals != [] {
      var init := vals[..|vals| - 1];
      LayoutFlatten(init);
      FlattenPlace(Layout(init), vals[|vals| - 1]);
      assert init + [vals[|vals| - 1]] == vals;
    }
  }

  /** A forced break keeps the layout well wrapped. */
  lemma BreakWellWrapped(lines: seq<seq<string>>, v: string)
    requires WellWrapped(lines) && BreaksBefore(|Concat(lines[|lines| - 1])|, v)
    ensures WellWrapped(lines + [[v]])
  {
    var r := lines + [[v]];
    ConcatAppend([], v);
    assert [] + [v] == [v];
    forall i | 1 <= i < |r|
      ensures r[i] != [] && (|r[i]| == 1 || LineFits(r[i]))
      ensures BreaksBefore(|Concat(r[i - 1])|, r[i][0])
    {
      if i < |lines| {
        assert r[i] == lines[i] && r[i - 1] == lines[i - 1];
      }
    }
  }

  /** Appending an element that fits keeps the layout well wrapped. */
  lemma AppendWellWrapped(lines: seq<seq<string>>, v: string)
    requires WellWrapped(lines) && !BreaksBefore(|Concat(lines[|lines| - 1])|, v)
    ensures WellWrapped(lines[..|lines| - 1] + [lines[|lines| - 1] + [v]])
  {
    var k := |lines|;
    var last := lines[k - 1];
    var r := lines[..k - 1] + [last + [v]];
    ConcatAppend(last, v);
    assert LineFits(r[k - 1]);
    forall i | 1 <= i < |r|
      ensures r[i] != [] && (|r[i]| == 1 || LineFits(r[i]))
      ensures BreaksBefore(|Concat(r[i - 1])|, r[i][0])
    {
      assert r[i - 1] == lines[i - 1];
      if i < k - 1 {
        assert r[i] == lines[i];
      } else {
        assert r[i][0] == lines[i][0];
      }
    }
  }

  lemma PlaceWellWrapped(lines: seq<seq<string>>, v: string)
    requires WellWrapped(lines)
    ensures WellWrapped(Place(lines, v))
  {
    if BreaksBefore(|Concat(lines[|lines| - 1])|, v) {
      BreakWellWrapped(lines, v);
    } else {
      AppendWellWrapped(lines, v);
    }
  }

  /**
    The wrap bound: every body line fits in `COLLIM` columns unless it
    holds a single element, and every break is forced by the next element.
   */
  lemma {:induction false} LayoutWellWrapped(vals: seq<string>)
    ensures WellWrapped(Layout(vals))
  {
    if vals == [] {
      assert Layout(vals) == [[]];
      assert Concat([]) == "";
    } else {
      LayoutWellWrapped(vals[..|vals| - 1]);
      PlaceWellWrapped(Layout(vals[..|vals| - 1]), vals[|vals| - 1]);
    }
  }

  /**
    The wrap rule in both directions: adding one element to the input adds
    a line break before it exactly when the characters of the current last
    line plus the element exceed `COLLIM`.
   */
  lemma LayoutStep(vals: seq<string>, v: string)
    ensures var before := Layout(vals);
            var after := Layout(vals + [v]);
            && (|after| == |before| + 1 <==> |Concat(before[|before| - 1])| + |v| > COLLIM)
            && (|after| == |before| <==> |Concat(before[|before| - 1])| + |v| <= COLLIM)
  {
    assert (vals + [v])[..|vals|] == vals;
  }

  /**
    The body loop of `printCUInt32Array` / `printCFloat32Array`: `nb`
    counts the characters written since the last line break; an element
    that would take it past `COLLIM` is preceded by a newline and restarts
    the count. The body produced is the layout's lines joined by newlines.
   */
  method WrapElements(vals: seq<string>) returns (body: string)
    ensures body == JoinLines(Layout(vals))
  {
    var nb: nat := 0;
    body := "";
    ghost var lines: seq<seq<string>> := [[]];
    var i := 0;
    while i < |vals|
      invariant i <= |vals|
      invariant lines == Layout(vals[..i])
      invariant body == JoinLines(lines)
      invariant nb == |Concat(lines[|lines| - 1])|
    {
      var val := vals[i];
      JoinPlace(lines, val);
      ConcatAppend(lines[|lines| - 1], val);
      ConcatAppend([], val);
      assert [] + [val] == [val];
      nb := nb + |val|;
      if nb > COLLIM {
        body := body + "\n";
        nb := |val|;
      }
      body := body + val;
      lines := Place(lines, val);
      assert vals[..i + 1][..i] == vals[..i];
      i := i + 1;
    }
    assert vals[..i] == vals;
  }

  /** `s` with every newline character deleted. */
  function StripNewlines(s: string): string
  {
    if s == [] then ""
    else StripNewlines(s[..|s| - 1]) + (if s[|s| - 1] == '\n' then "" else [s[|s| - 1]])
  }

  lemma {:induction false} StripAppend(a: string, b: string)
    ensures StripNewlines(a + b) == StripNewlines(a) + StripNewlines(b)
    decreases |b|
  {
    if b == [] {
      assert a + b == a;
    } else {
      var b' := b[..|b| - 1];
      assert (a + b)[..|a + b| - 1] == a + b';
      StripAppend(a, b');
    }
  }

  predicate NoNewline(s: string)
  {
    forall j :: 0 <= j < |s| ==> s[j] != '\n'
  }

  lemma {:induction false} StripNoNewline(s: string)
    requires NoNewline(s)
    ensures StripNewlines(s) == s
    decreases |s|
  {
    if s != [] {
      StripNoNewline(s[..|s| - 1]);
    }
  }

  lemma {:induction false} StripConcat(vals: seq<string>)
    requires forall k :: 0 <= k < |vals| ==> NoNewline(vals[k])
    ensures StripNewlines(Concat(vals)) == Concat(vals)
    decreases |vals|
  {
    if vals != [] {
      StripConcat(vals[..|vals| - 1]);
      StripAppend(Concat(vals[..|vals| - 1]), vals[|vals| - 1]);
      StripNoNewline(vals[|vals| - 1]);
    }
  }

  lemma {:induction false} StripJoin(lines: seq<seq<string>>)
    requires forall k :: 0 <= k < |Flatten(lines)| ==> NoNewline(Flatten(lines)[k])
    ensures StripNewlines(JoinLines(lines)) == Concat(Flatten(lines))
    decreases |lines|
  {
    if lines != [] {
      var init := lines[..|lines| - 1];
      var last := lines[|lines| - 1];
      assert Flatten(lines) == Flatten(init) + last;
      forall k | 0 <= k < |last|
        ensures NoNewline(last[k])
      {
        assert last[k] == Flatten(lines)[|Flatten(init)| + k];
      }
      StripConcat(last);
      ConcatSplit(Flatten(init), last);
      if |lines| == 1 {
        assert Flatten(init) == [];
      } else {
        forall k | 0 <= k < |Flatten(init)|
          ensures NoNewline(Flatten(init)[k])
        {
          assert Flatten(init)[k] == Flatten(lines)[k];
        }
        StripJoin(init);
        StripAppend(JoinLines(init) + "\n", Concat(last));
        StripAppend(JoinLines(init), "\n");
        assert StripNewlines("\n") == StripNewlines("") + "";
      }
    }
  }

  /**
    Deleting the newlines the wrap inserted gives back the elements written
    one after the other, provided no element contains a newline itself.
   */
  lemma WrapKeepsContent(vals: seq<string>)
    requires forall k :: 0 <= k < |vals| ==> NoNewline(vals[k])
    ensures StripNewlines(JoinLines(Layout(vals))) == Concat(vals)
  {
    LayoutFlatten(vals);
    StripJoin(Layout(vals));
  }

  /** `<ctype> <name>[<len>]`, the declarator shared by a definition and its `extern` declaration. */
  function Declarator(ctype: string, name: string, len: nat): string
  {
    ctype + " " + name + "[" + NatToString(len) + "]"
  }

  /** The text of a definition whose body elements are `vals`. */
  function DefinitionText(ctype: string, name: string, vals: seq<string>): string
  {
    Declarator(ctype, name, |vals|) + "={\n" + JoinLines(Layout(vals)) + "};\n\n"
  }

  /** The element string `"%d,"` of an unsigned entry. */
  function UIntElement(d: nat): (v: string)
    ensures NoNewline(v) && Count(v, ',') == 1
  {
    DigitsHaveNoComma(NatToString(d));
    CountAppend(NatToString(d), ",", ',');
    NatToString(d) + ","
  }

  /** The element string `"%.20ff,"` of a float entry, given the `%.20f` rendering of its value. */
  function FloatElement(rendered: string): (v: string)
    ensures NoNewline(rendered) ==> NoNewline(v)
    ensures Count(v, ',') == Count(rendered, ',') + 1
  {
    CountAppend(rendered, "f,", ',');
    assert "f," == "f" + ",";
    CountAppend("f", ",", ',');
    rendered + "f,"
  }

  function UIntElements(arr: seq<nat>): (vals: seq<string>)
    ensures |vals| == |arr|
    ensures forall i :: 0 <= i < |arr| ==> vals[i] == UIntElement(arr[i])
  {
    seq(|arr|, i requires 0 <= i < |arr| => UIntElement(arr[i]))
  }

  function FloatElements(rendered: seq<string>): (vals: seq<string>)
    ensures |vals| == |rendered|
    ensures forall i :: 0 <= i < |rendered| ==> vals[i] == FloatElement(rendered[i])
  {
    seq(|rendered|, i requires 0 <= i < |rendered| => FloatElement(rendered[i]))
  }

  /** `printCUInt32Array`: the definition of a `uint32_t` array. */
  method PrintCUInt32Array(name: string, arr: seq<nat>) returns (text: string)
    ensures text == DefinitionText("uint32_t", name, UIntElements(arr))
  {
    var vals := UIntElements(arr);
    var body := WrapElements(vals);
    text := Declarator("uint32_t", name, |arr|) + "={\n" + body + "};\n\n";
  }

  /** `printCFloat32Array`: the definition of a `float32_t` array, from the `%.20f` renderings of its values. */
  method PrintCFloat32Array(name: string, rendered: seq<string>) returns (text: string)
    ensures text == DefinitionText("float32_t", name, FloatElements(rendered))
  {
    var vals := FloatElements(rendered);
    var body := WrapElements(vals);
    text := Declarator("float32_t", name, |rendered|) + "={\n" + body + "};\n\n";
  }

  /**
    `printHUInt32Array`: the `extern` declaration of a `uint32_t` array. For
    a name without a newline it is a single line, ended by `;`.
   */
  function HUInt32Array(name: string, arr: seq<nat>): (h: string)
    ensures |h| >= 2 && h[|h| - 2..] == ";\n"
    ensures NoNewline(name) ==> NoNewline(h[..|h| - 1])
  {
    ExternOneLine("uint32_t", name, |arr|);
    "extern " + Declarator("uint32_t", name, |arr|) + ";\n"
  }

  /**
    `printHFloat32Array`: the `extern` declaration of a `float32_t` array.
    For a name without a newline it is a single line, ended by `;`.
   */
  function HFloat32Array(name: string, rendered: seq<string>): (h: string)
    ensures |h| >= 2 && h[|h| - 2..] == ";\n"
    ensures NoNewline(name) ==> NoNewline(h[..|h| - 1])
  {
    ExternOneLine("float32_t", name, |rendered|);
    "extern " + Declarator("float32_t", name, |rendered|) + ";\n"
  }

  /** The declarator of a type and a name without newlines has no newline. */
  lemma DeclaratorNoNewline(ctype: string, name: string, len: nat)
    requires NoNewline(ctype) && NoNewline(name)
    ensures NoNewline(Declarator(ctype, name, len))
  {
    DigitsNoNewline(NatToString(len));
    NoNewlineAppend(ctype, " ");
    NoNewlineAppend(ctype + " ", name);
    NoNewlineAppend(ctype + " " + name, "[");
    NoNewlineAppend(ctype + " " + name + "[", NatToString(len));
    NoNewlineAppend(ctype + " " + name + "[" + NatToString(len), "]");
  }

  lemma ExternOneLine(ctype: string, name: string, len: nat)
    requires NoNewline(ctype)
    ensures var h := "extern " + Declarator(ctype, name, len) + ";\n";
            && |h| >= 2 && h[|h| - 2..] == ";\n"
            && (NoNewline(name) ==> NoNewline(h[..|h| - 1]))
  {
    var d := Declarator(ctype, name, len);
    var h := "extern " + d + ";\n";
    assert h[..|h| - 1] == "extern " + d + ";";
    assert h[|h| - 2..] == ";\n";
    if NoNewline(name) {
      DeclaratorNoNewline(ctype, name, len);
      NoNewlineAppend("extern ", d);
      NoNewlineAppend("extern " + d, ";");
    }
  }

  /** Number of occurrences of `c` in `s`. */
  function Count(s: string, c: char): nat
  {
    if s == [] then 0 else Count(s[..|s| - 1], c) + (if s[|s| - 1] == c then 1 else 0)
  }

  lemma {:induction false} CountAppend(a: string, b: string, c: char)
    ensures Count(a + b, c) == Count(a, c) + Count(b, c)
    decreases |b|
  {
    if b == [] {
      assert a + b == a;
    } else {
      assert (a + b)[..|a + b| - 1] == a + b[..|b| - 1];
      CountAppend(a, b[..|b| - 1], c);
    }
  }

  lemma {:induction false} DigitsHaveNoComma(s: string)
    requires AllDigits(s)
    ensures Count(s, ',') == 0
    decreases |s|
  {
    if s != [] {
      DigitsHaveNoComma(s[..|s| - 1]);
    }
  }

  /** Deleting newlines does not change the number of any other character. */
  lemma {:induction false} CountStrip(s: string, c: char)
    requires c != '\n'
    ensures Count(StripNewlines(s), c) == Count(s, c)
    decreases |s|
  {
    if s != [] {
      var x := s[|s| - 1];
      CountStrip(s[..|s| - 1], c);
      CountAppend(StripNewlines(s[..|s| - 1]), if x == '\n' then "" else [x], c);
      assert Count([x], c) == Count([], c) + (if x == c then 1 else 0);
    }
  }

  lemma {:induction false} CountConcat(vals: seq<string>, c: char)
    requires forall k :: 0 <= k < |vals| ==> Count(vals[k], c) == 1
    ensures Count(Concat(vals), c) == |vals|
    decreases |vals|
  {
    if vals != [] {
      CountConcat(vals[..|vals| - 1], c);
      CountAppend(Concat(vals[..|vals| - 1]), vals[|vals| - 1], c);
    }
  }

  /**
    Each body element ends in the only comma it contains, so the body of a
    definition has exactly one comma per element: as many entries as the
    header declares.
   */
  lemma BodyEntryCount(vals: seq<string>)
    requires forall k :: 0 <= k < |vals| ==> NoNewline(vals[k]) && Count(vals[k], ',') == 1
    ensures Count(JoinLines(Layout(vals)), ',') == |vals|
  {
    WrapKeepsContent(vals);
    CountStrip(JoinLines(Layout(vals)), ',');
    CountConcat(vals, ',');
  }

  /** The `uint32_t` body holds one comma-terminated entry per array element. */
  lemma UIntEntryCount(arr: seq<nat>)
    ensures Count(JoinLines(Layout(UIntElements(arr))), ',') == |arr|
  {
    BodyEntryCount(UIntElements(arr));
  }

  /** The `float32_t` body holds one comma-terminated entry per array element, when the renderings hold no comma or newline. */
  lemma FloatEntryCount(rendered: seq<string>)
    requires forall k :: 0 <= k < |rendered| ==> NoNewline(rendered[k]) && Count(rendered[k], ',') == 0
    ensures Count(JoinLines(Layout(FloatElements(rendered))), ',') == |rendered|
  {
    BodyEntryCount(FloatElements(rendered));
  }

  /**
    The definition's header declares the number of elements: the digits
    between the brackets that follow `<ctype> <name>` read back as `|vals|`.
   */
  lemma DeclaredLength(ctype: string, name: string, vals: seq<string>)
    ensures var text := DefinitionText(ctype, name, vals);
            var p := |ctype| + |name| + 2;
            var d := |NatToString(|vals|)|;
            && p + d < |text|
            && text[p - 1] == '[' && text[p + d] == ']'
            && AllDigits(text[p..p + d])
            && ParseDecimal(text[p..p + d]) == |vals|
  {
    var text := DefinitionText(ctype, name, vals);
    var digits := NatToString(|vals|);
    var p := |ctype| + |name| + 2;
    var rest := "={\n" + JoinLines(Layout(vals)) + "};\n\n";
    assert text == (ctype + " " + name + "[") + digits + ("]" + rest);
    assert text[p..p + |digits|] == digits;
    ParseRender(|vals|);
  }

  /** The text of `s` before its first newline. */
  function FirstLine(s: string): string
  {
    if s == [] || s[0] == '\n' then "" else [s[0]] + FirstLine(s[1..])
  }

  lemma {:induction false} FirstLineOf(a: string, b: string)
    requires NoNewline(a)
    ensures FirstLine(a + "\n" + b) == a
    decreases |a|
  {
    if a != [] {
      assert (a + "\n" + b)[1..] == a[1..] + "\n" + b;
      FirstLineOf(a[1..], b);
    }
  }

  lemma NoNewlineAppend(a: string, b: string)
    requires NoNewline(a) && NoNewline(b)
    ensures NoNewline(a + b)
  {
    assert forall j :: |a| <= j < |a + b| ==> (a + b)[j] == b[j - |a|];
  }

  lemma DigitsNoNewline(s: string)
    requires AllDigits(s)
    ensures NoNewline(s)
  {
  }

  /**
    The `extern` declaration matches its definition: it is the definition's
    first line with the initialiser `={` replaced by `;` and `extern` in front,
    so both name the same type, identifier and length.
   */
  lemma ExternMatchesDefinition(ctype: string, name: string, vals: seq<string>)
    requires NoNewline(ctype) && NoNewline(name)
    ensures var header := FirstLine(DefinitionText(ctype, name, vals));
            && |header| >= 2 && header[|header| - 2..] == "={"
            && header[..|header| - 2] == Declarator(ctype, name, |vals|)
  {
    var decl := Declarator(ctype, name, |vals|);
    DeclaratorNoNewline(ctype, name, |vals|);
    NoNewlineAppend(decl, "={");
    assert DefinitionText(ctype, name, vals) == (decl + "={") + "\n" + (JoinLines(Layout(vals)) + "};\n\n");
    FirstLineOf(decl + "={", JoinLines(Layout(vals)) + "};\n\n");
    assert (decl + "={")[..|decl|] == decl;
  }

  /** `printHUInt32Array` declares the array `printCUInt32Array` defines. */
  lemma UIntExternMatches(name: string, arr: seq<nat>)
    requires NoNewline(name)
    ensures var header := FirstLine(DefinitionText("uint32_t", name, UIntElements(arr)));
            && |header| >= 2 && header[|header| - 2..] == "={"
            && HUInt32Array(name, arr) == "extern " + header[..|header| - 2] + ";\n"
  {
    ExternMatchesDefinition("uint32_t", name, UIntElements(arr));
  }

  /** `printHFloat32Array` declares the array `printCFloat32Array` defines. */
  lemma FloatExternMatches(name: string, rendered: seq<string>)
    requires NoNewline(name)
    ensures var header := FirstLine(DefinitionText("float32_t", name, FloatElements(rendered)));
            && |header| >= 2 && header[|header| - 2..] == "={"
            && HFloat32Array(name, rendered) == "extern " + header[..|header| - 2] + ";\n"
  {
    ExternMatchesDefinition("float32_t", name, FloatElements(rendered));
  }
}
