/** The student list both dashboards show: how a row is displayed, which rows
    the search keeps, and the strand counts behind the chart. */
module StudentList {
  import opened Text

  /** A nullable TEXT column as read back from SQLite. */
  datatype Column = Null | Str(s: string)

  /** `str(x)` in an f-string: NULL reads back as None. */
  function Render(c: Column): string {
    match c
    case Null => "None"
    case Str(s) => s
  }

  predicate Truthy(c: Column) {
    c.Str? && c.s != ""
  }

  /** `x or default` */
  function OrText(c: Column, default: string): (r: string)
    ensures Truthy(c) ==> r == c.s
    ensures !Truthy(c) ==> r == default
  {
    if Truthy(c) then c.s else default
  }

  /** One row of `SELECT student_id, first_name, middle_name, last_name, extension,
      enrollment_type, strand, registration_date FROM students`. */
  datatype Listing = Listing(
    studentId: nat, firstName: Column, middleName: Column, lastName: Column, extension: Column,
    enrollmentType: Column, strand: Column, registrationDate: Column)

  /** `f"ST-{student_id:04d}"` */
  function StudentNumber(id: nat): string {
    "ST-" + Pad4(id)
  }

  /** A student number is "ST-" and at least four digits. */
  lemma StudentNumberShape(id: nat)
    ensures var r := StudentNumber(id);
            |r| >= 7 && r[..3] == "ST-" && IsDigits(r[3..])
  {
    assert StudentNumber(id)[3..] == Pad4(id);
    Pad4Digits(id);
  }

  /** The student number displays the id it was made from. */
  lemma StudentNumberRoundTrip(id: nat)
    ensures DigitsValue(StudentNumber(id)[3..]) == id
  {
    assert StudentNumber(id)[3..] == Pad4(id);
    Pad4Digits(id);
  }

  lemma StudentNumberInjective(m: nat, n: nat)
    ensures StudentNumber(m) == StudentNumber(n) ==> m == n
  {
    StudentNumberRoundTrip(m);
    StudentNumberRoundTrip(n);
  }

  /** `f"{first}{middle_initial} {last}{extension}"`, where the middle initial is
      `f" {middle[0]}."` and the extension `f" {extension}"` when present. */
  function DisplayName(st: Listing): string {
    var initial := if Truthy(st.middleName) then [' ', st.middleName.s[0], '.'] else "";
    var ext := if Truthy(st.extension) then " " + st.extension.s else "";
    Render(st.firstName) + initial + " " + Render(st.lastName) + ext
  }

  /** The five texts of a displayed row. */
  datatype DisplayRow = DisplayRow(number: string, name: string, status: string, strand: string, date: string)

  /** The row `populate_student_table` shows for one listing. */
  function Display(st: Listing): DisplayRow {
    var date := if Truthy(st.registrationDate) then st.registrationDate.s[..Min(10, |st.registrationDate.s|)] else "N/A";
    DisplayRow(StudentNumber(st.studentId), DisplayName(st), OrText(st.enrollmentType, "Freshmen"),
               OrText(st.strand, "N/A"), date)
  }

  /** The name starts with the first name; the middle name shows as its initial
      and a period, and the extension, when present, ends the name after a space;
      without either the name is "first last". */
  lemma DisplayNameParts(st: Listing)
    ensures var name := DisplayName(st);
            Render(st.firstName) <= name
            && (!Truthy(st.middleName) && !Truthy(st.extension) ==>
                  name == Render(st.firstName) + " " + Render(st.lastName))
            && (Truthy(st.middleName) ==> Render(st.firstName) + [' ', st.middleName.s[0], '.'] <= name)
            && (Truthy(st.extension) ==>
                  |st.extension.s| < |name| && name[|name| - |st.extension.s| - 1..] == " " + st.extension.s)
  {
    var initial := if Truthy(st.middleName) then [' ', st.middleName.s[0], '.'] else "";
    var ext := if Truthy(st.extension) then " " + st.extension.s else "";
    var name := Render(st.firstName) + initial + " " + Render(st.lastName) + ext;
    assert name == Render(st.firstName) + (initial + " " + Render(st.lastName) + ext);
  }

  /** A displayed row: the student number of the id, missing status, strand and
      date shown as "Freshmen", "N/A" and "N/A", and the date cut to its first
      ten characters. */
  lemma DisplayParts(st: Listing)
    ensures var row := Display(st);
            row.number == StudentNumber(st.studentId) && row.name == DisplayName(st)
            && row.status == OrText(st.enrollmentType, "Freshmen") && row.status != ""
            && row.strand == OrText(st.strand, "N/A") && row.strand != ""
            && (!Truthy(st.registrationDate) ==> row.date == "N/A")
            && (Truthy(st.registrationDate) ==>
                  row.date <= st.registrationDate.s && |row.date| == Min(10, |st.registrationDate.s|))
  {
  }

  function Min(a: int, b: int): int { if a <= b then a else b }

  /** `populate_student_table`: one displayed row per listing, in order. */
  method PopulateStudentTable(students: seq<Listing>) returns (table: seq<DisplayRow>)
    ensures |table| == |students|
    ensures forall i :: 0 <= i < |students| ==> table[i] == Display(students[i])
  {
    table := [];
    for i := 0 to |students|
      invariant |table| == i
      invariant forall j :: 0 <= j < i ==> table[j] == Display(students[j])
    {
      table := table + [Display(students[i])];
    }
  }

  const AllStrands := "All Strands"

  /** The search of `filter_students`: the lower-cased term occurs in the
      lower-cased "first middle last" or in the lower-cased student number, and
      the strand is the selected one unless "All Strands" is selected. */
  predicate Matches(st: Listing, term: string, selected: string) {
    var fullName := Lower(Render(st.firstName) + " " + Render(st.middleName) + " " + Render(st.lastName));
    (Contains(fullName, term) || Contains(Lower(StudentNumber(st.studentId)), term))
    && (selected == AllStrands || selected == OrText(st.strand, ""))
  }

  /** The rows `keep` accepts, in their order. */
  function Filter(students: seq<Listing>, keep: Listing -> bool): (r: seq<Listing>)
    ensures |r| <= |students|
  {
    if students == [] then []
    else (if keep(students[0]) then [students[0]] else []) + Filter(students[1..], keep)
  }

  /** A row is kept exactly when it is one of the rows and is accepted. */
  lemma {:induction false} FilterMembers(students: seq<Listing>, keep: Listing -> bool, st: Listing)
    ensures st in Filter(students, keep) <==> st in students && keep(st)
  {
    if students != [] {
      FilterMembers(students[1..], keep, st);
      assert students == [students[0]] + students[1..];
    }
  }

  /** Filtering distributes over concatenation, so the kept rows stay in the order
      of the listing. */
  lemma {:induction false} FilterAppend(a: seq<Listing>, b: seq<Listing>, keep: Listing -> bool)
    ensures Filter(a + b, keep) == Filter(a, keep) + Filter(b, keep)
  {
    if a == [] {
      assert a + b == b;
    } else {
      FilterAppend(a[1..], b, keep);
      assert (a + b)[1..] == a[1..] + b;
      var first := if keep(a[0]) then [a[0]] else [];
      assert Filter(a + b, keep) == first + Filter(a[1..] + b, keep);
      assert first + (Filter(a[1..], keep) + Filter(b, keep)) == (first + Filter(a[1..], keep)) + Filter(b, keep);
    }
  }

  /** Filtering the result again keeps it as it is. */
  lemma {:induction false} FilterIdempotent(students: seq<Listing>, keep: Listing -> bool)
    ensures Filter(Filter(students, keep), keep) == Filter(students, keep)
  {
    if students != [] {
      var first := students[0];
      var rest := Filter(students[1..], keep);
      FilterIdempotent(students[1..], keep);
      if keep(first) {
        assert ([first] + rest)[1..] == rest;
      } else {
        assert Filter(students, keep) == [] + rest == rest;
      }
    }
  }

  /** The rows the search keeps, in their order. */
  function Kept(students: seq<Listing>, term: string, selected: string): seq<Listing> {
    Filter(students, st => Matches(st, term, selected))
  }

  /** A row is kept exactly when it is one of the rows and matches. */
  lemma KeptMembers(students: seq<Listing>, term: string, selected: string, st: Listing)
    ensures st in Kept(students, term, selected) <==> st in students && Matches(st, term, selected)
  {
    FilterMembers(students, st => Matches(st, term, selected), st);
  }

  /** An empty term with "All Strands" keeps every row. */
  lemma {:induction false} KeptAll(students: seq<Listing>)
    ensures Kept(students, "", AllStrands) == students
  {
    if students != [] {
      var first := students[0];
      ContainsEmpty(Lower(Render(first.firstName) + " " + Render(first.middleName) + " " + Render(first.lastName)));
      KeptAll(students[1..]);
      assert students == [first] + students[1..];
    }
  }

  /** An empty term fails no row on the name condition: only the strand decides. */
  lemma EmptyTermMatches(st: Listing, selected: string)
    ensures Matches(st, "", selected) <==> selected == AllStrands || selected == OrText(st.strand, "")
  {
    ContainsEmpty(Lower(Render(st.firstName) + " " + Render(st.middleName) + " " + Render(st.lastName)));
  }

  /** `filter_students`: the loop that appends each matching row. */
  method FilterStudents(allStudents: seq<Listing>, searchText: string, selected: string) returns (filtered: seq<Listing>)
    ensures filtered == Kept(allStudents, Lower(searchText), selected)
  {
    var term := Lower(searchText);
    filtered := [];
    for i := 0 to |allStudents|
      invariant filtered == Kept(allStudents[..i], term, selected)
    {
      assert allStudents[..i + 1] == allStudents[..i] + [allStudents[i]];
      FilterAppend(allStudents[..i], [allStudents[i]], st => Matches(st, term, selected));
      if Matches(allStudents[i], term, selected) {
        filtered := filtered + [allStudents[i]];
      }
    }
    assert allStudents[..|allStudents|] == allStudents;
  }

  const DefaultStrands: seq<string> := ["STEM", "ICT", "ABM", "GAS"]

  /** The entries of `defaults` absent from `queried`, in the order of `defaults`. */
  function MissingDefaults(defaults: seq<string>, queried: seq<string>): (r: seq<string>)
    ensures |r| <= |defaults|
  {
    if defaults == [] then []
    else
      var last := defaults[|defaults| - 1];
      MissingDefaults(defaults[..|defaults| - 1], queried) + (if last in queried then [] else [last])
  }

  /** A strand is added exactly when it is a default the query did not return. */
  lemma {:induction false} MissingDefaultsMembers(defaults: seq<string>, queried: seq<string>)
    ensures forall x :: x in MissingDefaults(defaults, queried) <==> x in defaults && x !in queried
  {
    if defaults != [] {
      var init := defaults[..|defaults| - 1];
      MissingDefaultsMembers(init, queried);
      assert defaults == init + [defaults[|defaults| - 1]];
    }
  }

  /** Distinct defaults are added at most once each. */
  lemma {:induction false} MissingDefaultsDistinct(defaults: seq<string>, queried: seq<string>)
    requires forall i, j :: 0 <= i < j < |defaults| ==> defaults[i] != defaults[j]
    ensures forall i, j :: 0 <= i < j < |MissingDefaults(defaults, queried)| ==>
              MissingDefaults(defaults, queried)[i] != MissingDefaults(defaults, queried)[j]
  {
    if defaults != [] {
      var init := defaults[..|defaults| - 1];
      var last := defaults[|defaults| - 1];
      MissingDefaultsDistinct(init, queried);
      MissingDefaultsMembers(init, queried);
      assert defaults == init + [last];
      assert last !in init;
      var prefix := MissingDefaults(init, queried);
      assert last !in prefix;
      var r := MissingDefaults(defaults, queried);
      assert r == prefix + (if last in queried then [] else [last]);
      forall i, j | 0 <= i < j < |r|
        ensures r[i] != r[j]
      {
        assert r[i] == prefix[i];
        if j < |prefix| {
          assert r[j] == prefix[j] && prefix[i] != prefix[j];
        } else {
          assert r[j] == last && prefix[i] in prefix;
        }
      }
    }
  }

  /** One more default is checked against the queried strands alone. */
  lemma MissingDefaultsSnoc(defaults: seq<string>, x: string, queried: seq<string>)
    ensures MissingDefaults(defaults + [x], queried)
            == MissingDefaults(defaults, queried) + (if x in queried then [] else [x])
  {
    assert (defaults + [x])[..|defaults|] == defaults;
  }

  /** With only STEM counted, ICT, ABM and GAS follow once each, in that order. */
  lemma OnlyStemPadded()
    ensures MissingDefaults(DefaultStrands, ["STEM"]) == ["ICT", "ABM", "GAS"]
  {
    var q := ["STEM"];
    MissingDefaultsSnoc([], "STEM", q);
    MissingDefaultsSnoc(["STEM"], "ICT", q);
    MissingDefaultsSnoc(["STEM", "ICT"], "ABM", q);
    MissingDefaultsSnoc(["STEM", "ICT", "ABM"], "GAS", q);
    assert [] + ["STEM"] == ["STEM"];
    assert ["STEM"] + ["ICT"] == ["STEM", "ICT"];
    assert ["STEM", "ICT"] + ["ABM"] == ["STEM", "ICT", "ABM"];
    assert ["STEM", "ICT", "ABM"] + ["GAS"] == DefaultStrands;
  }

  /** The strand padding of `update_dashboard_metrics`: the queried strands and
      counts in their order, then each default strand not among them, once and in
      the default order, with count 0. */
  method PadStrands(strandData: seq<(string, nat)>) returns (strands: seq<string>, counts: seq<nat>)
    ensures |strands| == |counts| && |strandData| <= |strands| <= |strandData| + |DefaultStrands|
    ensures forall i :: 0 <= i < |strandData| ==> strands[i] == strandData[i].0 && counts[i] == strandData[i].1
    ensures strands[|strandData|..] == MissingDefaults(DefaultStrands, strands[..|strandData|])
    ensures forall j :: |strandData| <= j < |counts| ==> counts[j] == 0
    ensures forall d :: d in DefaultStrands ==> d in strands
  {
    strands, counts := [], [];
    for i := 0 to |strandData|
      invariant |strands| == |counts| == i
      invariant forall k :: 0 <= k < i ==> strands[k] == strandData[k].0 && counts[k] == strandData[k].1
    {
      strands := strands + [strandData[i].0];
      counts := counts + [strandData[i].1];
    }
    ghost var queried := strands;
    for i := 0 to |DefaultStrands|
      invariant |strands| == |counts| && |strandData| <= |strands|
      invariant strands == queried + MissingDefaults(DefaultStrands[..i], queried)
      invariant forall k :: 0 <= k < |strandData| ==> strands[k] == strandData[k].0 && counts[k] == strandData[k].1
      invariant forall j :: |strandData| <= j < |counts| ==> counts[j] == 0
    {
      var strand := DefaultStrands[i];
      assert DefaultStrands[..i + 1] == DefaultStrands[..i] + [strand];
      MissingDefaultsSnoc(DefaultStrands[..i], strand, queried);
      MissingDefaultsMembers(DefaultStrands[..i], queried);
      assert strand !in DefaultStrands[..i];
      assert strand in strands <==> strand in queried;
      if strand !in strands {
        strands := strands + [strand];
        counts := counts + [0];
      }
    }
    assert DefaultStrands[..|DefaultStrands|] == DefaultStrands;
    assert strands[..|strandData|] == queried;
    MissingDefaultsMembers(DefaultStrands, queried);
    assert forall d :: d in DefaultStrands ==> d in queried || d in strands[|strandData|..];
  }
}
