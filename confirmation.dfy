/** The confirmation page: the family summary it shows, the rule for one summary
    section, and the submit button that fires once. */
module Confirmation {
  import opened Values
  import opened Text
  import opened Forms
  import opened FamilyRules

  /** The keys a parent's own entries never come from. */
  const MetaKeys: set<string> := {"first_name", "last_name", "skipped"}

  /** `f"{who} {key.replace('_', ' ').title()}"` */
  function FieldLabel(who: string, key: string): (l: string)
    ensures who + " " <= l
  {
    who + " " + Title(Underscores(key))
  }

  /** A falsy value is displayed as 'N/A'. */
  function Shown(v: Value): (s: Value)
    ensures Truthy(s)
    ensures Truthy(v) ==> s == v
  {
    if Truthy(v) then v else Text("N/A")
  }

  /** One turn of the loop over a parent's items. */
  function AddField(acc: Dict, who: string, item: (string, Value)): Dict {
    if item.0 in MetaKeys then acc else Put(acc, FieldLabel(who, item.0), Shown(item.1))
  }

  /** The loop over a parent's items, in their order. */
  function FieldsInto(acc: Dict, who: string, p: Dict): Dict
    decreases |p|
  {
    if p == [] then acc else AddField(FieldsInto(acc, who, p[..|p| - 1]), who, p[|p| - 1])
  }

  /** `f"{first_name} {last_name}".strip()` */
  function FullName(p: Dict): string {
    Strip(Show(Get(p, "first_name", Text(""))) + " " + Show(Get(p, "last_name", Text(""))))
  }

  /** The entries one parent adds: a single '<who> Information': 'N/A' for a
      parent that is empty or skipped; otherwise the name when it is not blank,
      then the other fields. */
  function ParentSummary(acc: Dict, who: string, p: Dict): (r: Dict)
    ensures |p| == 0 || Skipped(p) ==> r == Put(acc, who + " Information", Text("N/A"))
  {
    if |p| > 0 && !Skipped(p) then
      var named := if FullName(p) != "" then Put(acc, who + " Name", Text(FullName(p))) else acc;
      FieldsInto(named, who, p)
    else
      Put(acc, who + " Information", Text("N/A"))
  }

  /** `process_family_data`: father, mother and guardian in that order. */
  function FamilySummary(family: FamilyData): Dict {
    ParentSummary(ParentSummary(ParentSummary([], "Father", family.father), "Mother", family.mother),
                  "Guardian", family.guardian)
  }

  /** Whether some non-meta item of `p` is displayed under `l`. */
  predicate Labels(who: string, p: Dict, l: string) {
    exists i :: 0 <= i < |p| && p[i].0 !in MetaKeys && FieldLabel(who, p[i].0) == l
  }

  /** The loop leaves every entry alone that no item of the parent is displayed under. */
  lemma {:induction false} FieldsIntoOther(acc: Dict, who: string, p: Dict, l: string)
    requires !Labels(who, p, l)
    ensures Lookup(FieldsInto(acc, who, p), l) == Lookup(acc, l)
    decreases |p|
  {
    if p != [] {
      var q := p[..|p| - 1];
      assert !Labels(who, q, l) by {
        forall i | 0 <= i < |q| ensures !(q[i].0 !in MetaKeys && FieldLabel(who, q[i].0) == l) {
          assert q[i] == p[i];
        }
      }
      FieldsIntoOther(acc, who, q, l);
    }
  }

  /** An item that no later item shadows is displayed with its value, or 'N/A'. */
  lemma {:induction false} FieldShown(acc: Dict, who: string, p: Dict, i: nat)
    requires i < |p| && p[i].0 !in MetaKeys
    requires forall j :: i < j < |p| ==> p[j].0 in MetaKeys || FieldLabel(who, p[j].0) != FieldLabel(who, p[i].0)
    ensures Lookup(FieldsInto(acc, who, p), FieldLabel(who, p[i].0)) == Some(Shown(p[i].1))
    decreases |p|
  {
    var q := p[..|p| - 1];
    if i < |p| - 1 {
      assert q[i] == p[i];
      FieldShown(acc, who, q, i);
    }
  }

  /** A parent only ever adds entries under its own label, so each parent's
      entries depend on its own dictionary alone. */
  lemma ParentSummaryOther(acc: Dict, who: string, p: Dict, l: string)
    requires !(who + " " <= l)
    ensures Lookup(ParentSummary(acc, who, p), l) == Lookup(acc, l)
  {
    if |p| > 0 && !Skipped(p) {
      var named := if FullName(p) != "" then Put(acc, who + " Name", Text(FullName(p))) else acc;
      assert !Labels(who, p, l);
      FieldsIntoOther(named, who, p, l);
    }
  }

  /** The name entry of a parent that is not skipped, unless one of its own items
      is displayed under the same label. */
  lemma ParentNameShown(acc: Dict, who: string, p: Dict)
    requires |p| > 0 && !Skipped(p) && FullName(p) != ""
    requires !Labels(who, p, who + " Name")
    ensures Lookup(ParentSummary(acc, who, p), who + " Name") == Some(Text(FullName(p)))
  {
    FieldsIntoOther(Put(acc, who + " Name", Text(FullName(p))), who, p, who + " Name");
  }

  /** In the whole summary, a father who is absent, empty or skipped shows as
      'Father Information': 'N/A', whatever the mother and guardian hold. */
  lemma SkippedFatherShown(family: FamilyData)
    requires |family.father| == 0 || Skipped(family.father)
    ensures Lookup(FamilySummary(family), "Father Information") == Some(Text("N/A"))
  {
    var f := ParentSummary([], "Father", family.father);
    assert Lookup(f, "Father Information") == Some(Text("N/A"));
    LaterParents(f, family.mother, family.guardian, "Father Information");
  }

  /** The mother's and guardian's entries leave every other label alone. */
  lemma LaterParents(acc: Dict, mother: Dict, guardian: Dict, l: string)
    requires |l| > 0 && l[0] == 'F'
    ensures Lookup(ParentSummary(ParentSummary(acc, "Mother", mother), "Guardian", guardian), l) == Lookup(acc, l)
  {
    ParentSummaryOther(acc, "Mother", mother, l);
    ParentSummaryOther(ParentSummary(acc, "Mother", mother), "Guardian", guardian, l);
  }

  /** The whole summary's entries under "Mother ..." depend only on the mother's
      dictionary: changing the father or guardian changes none of them. */
  lemma MotherIndependent(family: FamilyData, other: FamilyData, l: string)
    requires family.mother == other.mother && "Mother " <= l
    ensures Lookup(FamilySummary(family), l) == Lookup(FamilySummary(other), l)
  {
    MotherOnly(family, l);
    MotherOnly(other, l);
  }

  lemma MotherOnly(family: FamilyData, l: string)
    requires "Mother " <= l
    ensures Lookup(FamilySummary(family), l) == Lookup(ParentSummary([], "Mother", family.mother), l)
  {
    var f := ParentSummary([], "Father", family.father);
    var m := ParentSummary(f, "Mother", family.mother);
    assert !("Guardian " <= l) by {
      assert l[0] == 'M';
    }
    ParentSummaryOther(m, "Guardian", family.guardian, l);
    assert !("Father " <= l) by {
      assert l[0] == 'M';
    }
    ParentSummaryOther([], "Father", family.father, l);
    SummaryFrom(f, [], "Mother", family.mother, l);
  }

  /** A parent's entries do not depend on what came before it. */
  lemma SummaryFrom(acc1: Dict, acc2: Dict, who: string, p: Dict, l: string)
    requires Lookup(acc1, l) == Lookup(acc2, l)
    ensures Lookup(ParentSummary(acc1, who, p), l) == Lookup(ParentSummary(acc2, who, p), l)
  {
    if |p| > 0 && !Skipped(p) {
      var n1 := if FullName(p) != "" then Put(acc1, who + " Name", Text(FullName(p))) else acc1;
      var n2 := if FullName(p) != "" then Put(acc2, who + " Name", Text(FullName(p))) else acc2;
      FieldsIntoSame(n1, n2, who, p, l);
    }
  }

  /** The loop maps equal lookups to equal lookups. */
  lemma {:induction false} FieldsIntoSame(acc1: Dict, acc2: Dict, who: string, p: Dict, l: string)
    requires Lookup(acc1, l) == Lookup(acc2, l)
    ensures Lookup(FieldsInto(acc1, who, p), l) == Lookup(FieldsInto(acc2, who, p), l)
    decreases |p|
  {
    if p != [] {
      FieldsIntoSame(acc1, acc2, who, p[..|p| - 1], l);
    }
  }

  /** `process_family_data`, with the loop over each parent's items. */
  method ProcessFamilyData(family: FamilyData) returns (processed: Dict)
    ensures processed == FamilySummary(family)
  {
    processed := [];
    processed := AddParent(processed, "Father", family.father);
    processed := AddParent(processed, "Mother", family.mother);
    processed := AddParent(processed, "Guardian", family.guardian);
  }

  /** The block `process_family_data` repeats for each parent. */
  method AddParent(processed: Dict, who: string, p: Dict) returns (r: Dict)
    ensures r == ParentSummary(processed, who, p)
  {
    if |p| > 0 && !Skipped(p) {
      r := processed;
      var fullName := FullName(p);
      if fullName != "" {
        r := Put(r, who + " Name", Text(fullName));
      }
      ghost var named := r;
      for i := 0 to |p|
        invariant r == FieldsInto(named, who, p[..i])
      {
        assert p[..i + 1][..i] == p[..i];
        var (key, value) := p[i];
        if key !in MetaKeys {
          if Truthy(value) {
            r := Put(r, FieldLabel(who, key), value);
          } else {
            r := Put(r, FieldLabel(who, key), Text("N/A"));
          }
        }
      }
      assert p[..|p|] == p;
    } else {
      r := Put(processed, who + " Information", Text("N/A"));
    }
  }

  const NoDataRow := "No data provided."

  /** The text of one row of a summary section. */
  function RowText(key: string, value: Value): string {
    "<b>" + Title(Underscores(key)) + ":</b> " + Show(value)
  }

  /** `create_section`: one "No data provided." row for an empty dictionary,
      otherwise one row per key, in insertion order. */
  method CreateSection(d: Dict) returns (rows: seq<string>)
    ensures |d| == 0 ==> rows == [NoDataRow]
    ensures |d| > 0 ==> |rows| == |d| && forall i :: 0 <= i < |d| ==> rows[i] == RowText(d[i].0, d[i].1)
  {
    if |d| == 0 {
      return [NoDataRow];
    }
    rows := [];
    for i := 0 to |d|
      invariant |rows| == i
      invariant forall j :: 0 <= j < i ==> rows[j] == RowText(d[j].0, d[j].1)
    {
      rows := rows + [RowText(d[i].0, d[i].1)];
    }
  }

  /** The submit button: `submitted` is set by the first click and never cleared,
      so `submit_clicked` is emitted at most once. */
  class ConfirmationForm {
    var formData: Form
    var submitted: bool
    var buttonText: string
    var buttonEnabled: bool
    var emitted: nat

    ghost predicate Valid()
      reads this
    {
      emitted == (if submitted then 1 else 0)
      && (submitted ==> !buttonEnabled && buttonText == "Submitting...")
    }

    constructor ()
      ensures Valid() && !submitted && emitted == 0 && buttonEnabled && buttonText == "Submit"
      ensures formData == EmptyForm
    {
      formData := EmptyForm;
      submitted := false;
      buttonText := "Submit";
      buttonEnabled := true;
      emitted := 0;
    }

    /** `update_data`: the summary is rebuilt; the submit state is untouched. */
    method UpdateData(data: Form)
      requires Valid()
      modifies this
      ensures Valid()
      ensures formData == data
      ensures submitted == old(submitted) && emitted == old(emitted)
      ensures buttonText == old(buttonText) && buttonEnabled == old(buttonEnabled)
    {
      formData := data;
    }

    /** `on_submit`: the first click emits the signal, later clicks do nothing. */
    method OnSubmit()
      requires Valid()
      modifies this
      ensures Valid()
      ensures submitted && emitted == 1
      ensures old(submitted) ==> emitted == old(emitted)
      ensures formData == old(formData)
    {
      if submitted {
        return;
      }
      submitted := true;
      buttonText := "Submitting...";
      buttonEnabled := false;
      emitted := emitted + 1;
    }
  }
}
