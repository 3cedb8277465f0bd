/** model/DinnerInstance.py, `save_csv`: the solution as `;`-separated,
    double-quoted CSV text, and a reader that takes that text back apart. */
module Csv {
  import opened Common
  import opened Groups
  import opened Instance
  import opened Linear
  import opened Formulation
  import opened Meaning
  import opened Solve

  /** The text between two fields: closing quote, `;`, opening quote. */
  const Sep: string := "\";\""

  /** Python's `sep.join(parts)`. */
  function Join(parts: seq<string>, sep: string): string
  {
    if |parts| == 0 then ""
    else if |parts| == 1 then parts[0]
    else parts[0] + sep + Join(parts[1..], sep)
  }

  /** `events[1:-1]`: the main events, empty when there are fewer than two
      events (Python slicing never fails). */
  function Mains(events: seq<string>): (r: seq<string>)
    ensures |events| >= 2 ==> |r| == |events| - 2 && forall i :: 0 <= i < |r| ==> r[i] == events[i + 1]
    ensures |events| < 2 ==> r == []
  {
    if |events| >= 2 then events[1..|events| - 1] else []
  }

  /** The first line of the file: the header. */
  function HeaderLine(events: seq<string>): string
  {
    "\"Group\";\"" + Join(Mains(events), Sep) + "\"\n"
  }

  /** One line of the file: a group and the names of its hosts. */
  function RowLine(name: string, hosts: seq<string>): string
  {
    "\"" + name + Sep + Join(hosts, Sep) + "\"\n"
  }

  function Names(hosts: seq<Group>): (r: seq<string>)
    ensures |r| == |hosts| && forall k :: 0 <= k < |r| ==> r[k] == hosts[k].name
  {
    seq(|hosts|, k requires 0 <= k < |hosts| => hosts[k].name)
  }

  /** The rows, one per item of the solution dict, in its order. */
  function RowsText(items: seq<(Group, seq<Group>)>): string
  {
    if |items| == 0 then ""
    else RowLine(items[0].0.name, Names(items[0].1)) + RowsText(items[1..])
  }

  /** One more item, one more row at the end. */
  lemma {:induction false} RowsTextSnoc(items: seq<(Group, seq<Group>)>, x: (Group, seq<Group>))
    ensures RowsText(items + [x]) == RowsText(items) + RowLine(x.0.name, Names(x.1))
  {
    var row := RowLine(x.0.name, Names(x.1));
    if |items| == 0 {
      assert items + [x] == [x] && [x][1..] == [];
      assert row + "" == row;
    } else {
      assert (items + [x])[0] == items[0] && (items + [x])[1..] == items[1..] + [x];
      RowsTextSnoc(items[1..], x);
      var first := RowLine(items[0].0.name, Names(items[0].1));
      assert first + (RowsText(items[1..]) + row) == (first + RowsText(items[1..])) + row;
    }
  }

  /** What `save_csv` writes to the file. */
  function CsvText(events: seq<string>, items: seq<(Group, seq<Group>)>): string
  {
    HeaderLine(events) + RowsText(items)
  }

  /** `save_csv`: the header, then one `file.write` per item of the solution. */
  method SaveCsv(events: seq<string>, items: seq<(Group, seq<Group>)>) returns (written: string)
    ensures written == CsvText(events, items)
  {
    written := HeaderLine(events);
    for i := 0 to |items|
      invariant written == HeaderLine(events) + RowsText(items[..i])
    {
      assert items[..i + 1] == items[..i] + [items[i]];
      RowsTextSnoc(items[..i], items[i]);
      written := written + RowLine(items[i].0.name, Names(items[i].1));
    }
    assert items[..|items|] == items;
  }

  /** The solution dict `solve` returns, as its items: each group with its
      hosts, in group order. */
  function Items(groups: seq<Group>, visits: seq<seq<nat>>): (r: seq<(Group, seq<Group>)>)
    requires |visits| == |groups|
    requires forall g, m :: 0 <= g < |visits| && 0 <= m < |visits[g]| ==> visits[g][m] < |groups|
    ensures |r| == |groups|
    ensures forall g :: 0 <= g < |r| ==> r[g].0 == groups[g] && |r[g].1| == |visits[g]|
    ensures forall g, m :: 0 <= g < |r| && 0 <= m < |r[g].1| ==> r[g].1[m] == groups[visits[g][m]]
  {
    seq(|groups|, g requires 0 <= g < |groups| =>
      (groups[g], seq(|visits[g]|, m requires 0 <= m < |visits[g]| => groups[visits[g][m]])))
  }

  // ---- Reading the text back ----

  /** The position of the first `c` in `s` at or after `k`, or |s| when
      there is none. */
  function IndexFrom(s: string, c: char, k: nat): (i: nat)
    requires k <= |s|
    ensures k <= i <= |s|
    decreases |s| - k
  {
    if k == |s| then k
    else if s[k] == c then k
    else IndexFrom(s, c, k + 1)
  }

  /** The position of the first `c` in `s`, or |s| when there is none. */
  function IndexOf(s: string, c: char): (i: nat)
    ensures i <= |s|
  {
    IndexFrom(s, c, 0)
  }

  lemma {:induction false} IndexFromFinds(s: string, c: char, k: nat)
    requires k <= |s|
    ensures IndexFrom(s, c, k) < |s| ==> s[IndexFrom(s, c, k)] == c
    ensures forall j :: k <= j < IndexFrom(s, c, k) ==> s[j] != c
    decreases |s| - k
  {
    if k < |s| && s[k] != c {
      IndexFromFinds(s, c, k + 1);
    }
  }

  /** `IndexOf` finds the first `c`: there is a `c` at the position it
      returns, unless that is the end, and none before it. */
  lemma IndexOfFinds(s: string, c: char)
    ensures IndexOf(s, c) < |s| ==> s[IndexOf(s, c)] == c
    ensures forall j :: 0 <= j < IndexOf(s, c) ==> s[j] != c
  {
    IndexFromFinds(s, c, 0);
  }

  /** Nothing but the first `c` satisfies that. */
  lemma IndexOfIs(s: string, c: char, i: nat)
    requires i <= |s| && (i < |s| ==> s[i] == c) && forall j :: 0 <= j < i ==> s[j] != c
    ensures IndexOf(s, c) == i
  {
    IndexOfFinds(s, c);
  }

  lemma IndexOfAppend(s: string, t: string, c: char)
    requires c !in s
    ensures IndexOf(s + t, c) == |s| + IndexOf(t, c)
  {
    var i := |s| + IndexOf(t, c);
    IndexOfFinds(t, c);
    forall j | 0 <= j < i ensures (s + t)[j] != c {
      if j < |s| {
        assert (s + t)[j] == s[j];
      } else {
        assert (s + t)[j] == t[j - |s|];
      }
    }
    IndexOfIs(s + t, c, i);
  }

  /** The fields of a line's inside: runs of quote-free text, each pair
      separated by `";"`; None when a quote appears anywhere else. */
  function Fields(s: string): Option<seq<string>>
    decreases |s|
  {
    var i := IndexOf(s, '"');
    if i == |s| then Some([s])
    else if i + 3 <= |s| && s[i..i + 3] == Sep then
      match Fields(s[i + 3..])
      case Some(rest) => Some([s[..i]] + rest)
      case None => None
    else None
  }

  /** One line: an opening quote, the fields, a closing quote, a newline. */
  function ParseLine(line: string): Option<seq<string>>
  {
    if |line| >= 3 && line[0] == '"' && line[|line| - 2..] == "\"\n" then Fields(line[1..|line| - 2])
    else None
  }

  /** The text cut after each newline; what follows the last newline, if
      anything, is a last piece of its own. */
  function SplitLines(text: string): (r: seq<string>)
    decreases |text|
  {
    if |text| == 0 then []
    else
      var i := IndexOf(text, '\n');
      if i == |text| then [text]
      else [text[..i + 1]] + SplitLines(text[i + 1..])
  }

  /** Every line parsed by `parse`; None when one of them is malformed. */
  function ParseAll(lines: seq<string>, parse: string -> Option<seq<string>>): Option<seq<seq<string>>>
  {
    if |lines| == 0 then Some([])
    else
      match (parse(lines[0]), ParseAll(lines[1..], parse))
      case (Some(fields), Some(rest)) => Some([fields] + rest)
      case _ => None
  }

  /** The reader of the file: its lines and the fields of each; None when a
      line is malformed or the text does not end with a newline. */
  function ParseCsv(text: string): Option<seq<seq<string>>>
  {
    ParseAll(SplitLines(text), ParseLine)
  }

  /** A field the reader gets back unchanged: no quote and no newline. */
  predicate Plain(s: string)
  {
    '"' !in s && '\n' !in s
  }

  predicate AllPlain(parts: seq<string>)
  {
    forall k :: 0 <= k < |parts| ==> Plain(parts[k])
  }

  /** The quoted line that holds `parts`. */
  function Line(parts: seq<string>): string
  {
    "\"" + Join(parts, Sep) + "\"\n"
  }

  lemma {:induction false} JoinHasNoNewline(parts: seq<string>)
    requires AllPlain(parts)
    ensures '\n' !in Join(parts, Sep)
    decreases |parts|
  {
    if |parts| > 1 {
      assert AllPlain(parts[1..]) by {
        forall k | 0 <= k < |parts| - 1 ensures Plain(parts[1..][k]) {
          assert parts[1..][k] == parts[k + 1];
        }
      }
      JoinHasNoNewline(parts[1..]);
      assert '\n' !in parts[0] && '\n' !in Sep;
    } else if |parts| == 1 {
      assert Plain(parts[0]);
    }
  }

  /** A quote-free text is one field. */
  lemma FieldsSingle(f: string)
    requires '"' !in f
    ensures Fields(f) == Some([f])
  {
    forall j | 0 <= j < |f| ensures f[j] != '"' {
      assert f[j] in f;
    }
    IndexOfIs(f, '"', |f|);
  }

  /** A quote-free field and a separator in front of a text: that field in
      front of the text's fields. */
  lemma FieldsCons(f: string, t: string)
    requires '"' !in f && Fields(t).Some?
    ensures Fields(f + Sep + t) == Some([f] + Fields(t).value)
  {
    var s := f + Sep + t;
    assert s == f + (Sep + t);
    IndexOfAppend(f, Sep + t, '"');
    assert IndexOf(Sep + t, '"') == 0;
    var i := |f|;
    assert s[i..i + 3] == Sep && s[i + 3..] == t && s[..i] == f;
  }

  lemma {:induction false} FieldsOfJoin(parts: seq<string>)
    requires |parts| > 0 && AllPlain(parts)
    ensures Fields(Join(parts, Sep)) == Some(parts)
    decreases |parts|
  {
    assert Plain(parts[0]);
    if |parts| == 1 {
      FieldsSingle(parts[0]);
      assert parts == [parts[0]];
    } else {
      var rest := parts[1..];
      assert AllPlain(rest) by {
        forall k | 0 <= k < |rest| ensures Plain(rest[k]) {
          assert rest[k] == parts[k + 1];
        }
      }
      FieldsOfJoin(rest);
      FieldsCons(parts[0], Join(rest, Sep));
      assert [parts[0]] + rest == parts;
    }
  }

  /** Quote-free fields survive a line: the reader gives them back. */
  lemma LineRoundTrip(parts: seq<string>)
    requires |parts| > 0 && AllPlain(parts)
    ensures ParseLine(Line(parts)) == Some(parts)
    ensures |Line(parts)| > 0 && IndexOf(Line(parts), '\n') == |Line(parts)| - 1
  {
    var l := Line(parts);
    var inner := Join(parts, Sep);
    FieldsOfJoin(parts);
    JoinHasNoNewline(parts);
    assert l[1..|l| - 2] == inner;
    forall j | 0 <= j < |l| - 1 ensures l[j] != '\n' {
      if 1 <= j < |l| - 2 {
        assert l[j] == inner[j - 1];
      }
    }
    IndexOfIs(l, '\n', |l| - 1);
  }

  lemma JoinCons(first: string, rest: seq<string>)
    requires |rest| > 0
    ensures Join([first] + rest, Sep) == first + Sep + Join(rest, Sep)
  {
    assert ([first] + rest)[1..] == rest;
  }

  /** The header line is the line of "Group" and the main events. */
  lemma HeaderIsLine(events: seq<string>)
    requires |events| >= 3
    ensures HeaderLine(events) == Line(["Group"] + Mains(events))
  {
    JoinCons("Group", Mains(events));
  }

  /** A row with at least one host is the line of the group's name and
      its hosts' names. */
  lemma RowIsLine(name: string, hosts: seq<string>)
    requires |hosts| > 0
    ensures RowLine(name, hosts) == Line([name] + hosts)
  {
    JoinCons(name, hosts);
  }

  /** Nothing is escaped: a row without hosts reads as a row with one host
      whose name is empty, and a `";"` inside a group name reads as a field
      boundary. */
  lemma NotEscaped()
    ensures RowLine("a", []) == RowLine("a", [""])
    ensures RowLine("a\";\"b", ["c"]) == RowLine("a", ["b", "c"])
  {
    assert Join(["b", "c"], Sep) == "b" + Sep + "c" by {
      assert ["b", "c"][1..] == ["c"];
    }
  }

  /** A `c` in the first text is found there whatever follows it. */
  lemma IndexOfAppendFound(t1: string, t2: string, c: char)
    requires IndexOf(t1, c) < |t1|
    ensures IndexOf(t1 + t2, c) == IndexOf(t1, c)
  {
    var i := IndexOf(t1, c);
    IndexOfFinds(t1, c);
    forall j | 0 <= j <= i ensures (t1 + t2)[j] == t1[j] {
    }
    IndexOfIs(t1 + t2, c, i);
  }

  /** A whole line in front of a text is read as that line's fields in
      front of the text's rows. */
  lemma ParseCsvCons(l: string, rest: string, fields: seq<string>, rows: seq<seq<string>>)
    requires |l| > 0 && IndexOf(l, '\n') == |l| - 1
    requires ParseLine(l) == Some(fields) && ParseCsv(rest) == Some(rows)
    ensures ParseCsv(l + rest) == Some([fields] + rows)
  {
    var u := l + rest;
    IndexOfAppendFound(l, rest, '\n');
    assert u[..|l|] == l && u[|l|..] == rest;
    var ls := [l] + SplitLines(rest);
    assert SplitLines(u) == ls;
    assert ls[0] == l && ls[1..] == SplitLines(rest);
  }

  /** Every group name and host name is quote- and newline-free and every
      group has at least one host. */
  predicate PlainItems(items: seq<(Group, seq<Group>)>)
  {
    forall k :: 0 <= k < |items| ==>
      Plain(items[k].0.name) && |items[k].1| > 0 && AllPlain(Names(items[k].1))
  }

  /** The table the reader recovers from the rows. */
  function Table(items: seq<(Group, seq<Group>)>): (r: seq<seq<string>>)
    ensures |r| == |items|
  {
    seq(|items|, k requires 0 <= k < |items| => [items[k].0.name] + Names(items[k].1))
  }

  lemma {:induction false} RowsRoundTrip(items: seq<(Group, seq<Group>)>)
    requires PlainItems(items)
    ensures ParseCsv(RowsText(items)) == Some(Table(items))
  {
    if |items| == 0 {
      assert SplitLines("") == [];
    } else {
      var first, rest := items[0], items[1..];
      var fields := [first.0.name] + Names(first.1);
      assert PlainItems(rest) by {
        forall k | 0 <= k < |rest| ensures Plain(rest[k].0.name) && |rest[k].1| > 0 && AllPlain(Names(rest[k].1)) {
          assert rest[k] == items[k + 1];
        }
      }
      RowsRoundTrip(rest);
      RowIsLine(first.0.name, Names(first.1));
      assert AllPlain(fields);
      LineRoundTrip(fields);
      ParseCsvCons(RowLine(first.0.name, Names(first.1)), RowsText(rest), fields, Table(rest));
      assert [fields] + Table(rest) == Table(items) by {
        forall k | 0 <= k < |items| ensures ([fields] + Table(rest))[k] == Table(items)[k] {
          if k > 0 {
            assert rest[k - 1] == items[k];
          }
        }
      }
    }
  }

  /** `save_csv` round trip: with quote- and newline-free names, at least
      one main event and a host for every group, reading the file back
      gives the header (Group, then the main events) followed by one row
      per item (the group, then its hosts). */
  lemma CsvRoundTrip(events: seq<string>, items: seq<(Group, seq<Group>)>)
    requires |events| >= 3 && AllPlain(Mains(events)) && PlainItems(items)
    ensures ParseCsv(CsvText(events, items)) == Some([["Group"] + Mains(events)] + Table(items))
  {
    var header := ["Group"] + Mains(events);
    HeaderIsLine(events);
    assert AllPlain(header);
    LineRoundTrip(header);
    RowsRoundTrip(items);
    ParseCsvCons(HeaderLine(events), RowsText(items), header, Table(items));
  }

  /** The file `save_csv` writes for one host list per group reads back as
      the header and one row per group, in group order, each row as wide as
      the header: the group, then its host of each main event in event
      order, each one assigned to the group. */
  predicate CsvReadsBack(events: seq<string>, groups: seq<Group>, visits: seq<seq<nat>>, a: Assignment)
  {
    && |visits| == |groups|
    && (forall g, m :: 0 <= g < |visits| && 0 <= m < |visits[g]| ==> visits[g][m] < |groups|)
    && var items := Items(groups, visits);
       && ParseCsv(CsvText(events, items)) == Some([["Group"] + Mains(events)] + Table(items))
       && forall g :: 0 <= g < |items| ==>
            && |Table(items)[g]| == |events| - 1
            && forall m :: 0 <= m < |items[g].1| ==>
                 items[g].1[m].hostEventId == m + 1 && a(X(g, visits[g][m])) == 1.0
  }

  /** `save_csv` on what line 195 decodes from a solution of the
      instance's problem. */
  lemma SolutionCsv(inst: DinnerInstance, a: Assignment)
    requires Valid(inst) && Feasible(SetupOf(inst), a)
    requires AllPlain(Mains(inst.events))
    requires forall g :: 0 <= g < |inst.groups| ==> Plain(inst.groups[g].name)
    ensures CsvReadsBack(inst.events, inst.groups, Decode(inst.groups, a), a)
  {
    var visits := Decode(inst.groups, a);
    DecodedAll(inst, a);
    VisitsCsv(inst.events, inst.groups, visits, a);
  }

  /** One host list per group, each with one host per main event, in event
      order, and each host assigned to its group. */
  predicate HostPerEvent(eventCount: nat, groups: seq<Group>, visits: seq<seq<nat>>, a: Assignment)
  {
    && eventCount >= 3 && |visits| == |groups|
    && forall g :: 0 <= g < |groups| ==>
         && |visits[g]| == eventCount - 2
         && forall m :: 0 <= m < |visits[g]| ==>
              visits[g][m] < |groups| && groups[visits[g][m]].hostEventId == m + 1 && a(X(g, visits[g][m])) == 1.0
  }

  /** What a solution gives line 195 for group g (see `SolutionRounds`). */
  predicate RoundsPicked(inst: DinnerInstance, a: Assignment, g: nat)
  {
    && g < |inst.groups| && a(X(g, g)) == 1.0
    && (forall e :: 1 <= e <= |inst.events| - 2 ==> |PickedFrom(a, g, Bucket(inst.groups, |inst.groups|, e))| == 1)
    && (forall h :: 0 <= h < |inst.groups| ==> Bit(a(X(g, h))))
  }

  /** Line 195 on a solution, for every group at once. */
  lemma DecodedAll(inst: DinnerInstance, a: Assignment)
    requires Valid(inst) && Feasible(SetupOf(inst), a)
    ensures HostPerEvent(|inst.events|, inst.groups, Decode(inst.groups, a), a)
  {
    forall g | 0 <= g < |inst.groups| ensures RoundsPicked(inst, a, g) {
      SolutionRounds(inst, a, g);
    }
    DecodedOnValid(inst, a);
  }

  lemma DecodedOnValid(inst: DinnerInstance, a: Assignment)
    requires Valid(inst) && forall g :: 0 <= g < |inst.groups| ==> RoundsPicked(inst, a, g)
    ensures HostPerEvent(|inst.events|, inst.groups, Decode(inst.groups, a), a)
  {
    var groups, visits := inst.groups, Decode(inst.groups, a);
    forall g | 0 <= g < |groups|
      ensures |visits[g]| == |inst.events| - 2
      ensures forall m :: 0 <= m < |visits[g]| ==>
                visits[g][m] < |groups| && groups[visits[g][m]].hostEventId == m + 1 && a(X(g, visits[g][m])) == 1.0
    {
      assert RoundsPicked(inst, a, g);
      DecodeOnValid(inst, a, g);
    }
  }

  /** The CSV of one host list per group, each list one host per main event
      in event order. */
  lemma VisitsCsv(events: seq<string>, groups: seq<Group>, visits: seq<seq<nat>>, a: Assignment)
    requires HostPerEvent(|events|, groups, visits, a) && AllPlain(Mains(events))
    requires forall g :: 0 <= g < |groups| ==> Plain(groups[g].name)
    ensures CsvReadsBack(events, groups, visits, a)
  {
    var items := Items(groups, visits);
    ItemsPlain(groups, visits);
    CsvRoundTrip(events, items);
  }

  lemma ItemsPlain(groups: seq<Group>, visits: seq<seq<nat>>)
    requires |visits| == |groups|
    requires forall g, m :: 0 <= g < |visits| && 0 <= m < |visits[g]| ==> visits[g][m] < |groups|
    requires forall g :: 0 <= g < |groups| ==> Plain(groups[g].name) && |visits[g]| > 0
    ensures PlainItems(Items(groups, visits))
  {
    var items := Items(groups, visits);
    forall k | 0 <= k < |items| ensures Plain(items[k].0.name) && |items[k].1| > 0 && AllPlain(Names(items[k].1)) {
      forall j | 0 <= j < |items[k].1| ensures Plain(Names(items[k].1)[j]) {
        assert items[k].1[j] == groups[visits[k][j]];
      }
    }
  }
}
