/** How both stores turn the family section into a `family_background` row. */
module FamilyRules {
  import opened Values
  import opened Text
  import opened Forms

  /** The columns one parent contributes: name, age, ethnicity, occupation, education. */
  datatype ParentColumns = ParentColumns(name: string, age: nat, ethnicity: Value, occupation: Value, education: Value)

  datatype FamilyRow = FamilyRow(father: ParentColumns, mother: ParentColumns, guardian: ParentColumns, guardianContact: Value)

  /** `p.get("skipped", True)` is truthy: a parent whose dictionary lacks the flag counts as skipped. */
  predicate Skipped(parent: Dict) {
    Truthy(Get(parent, "skipped", Flag(true)))
  }

  /** The name column is blank exactly for a skipped parent: otherwise it is
      `"{first_name} {last_name}"`, which holds at least the separating space. */
  function ParentName(parent: Dict): (name: string)
    ensures name == "" <==> Skipped(parent)
    ensures !Skipped(parent) ==>
              exists i :: 0 <= i < |name| && name[i] == ' '
                && name[..i] == Show(Get(parent, "first_name", Text("")))
                && name[i + 1..] == Show(Get(parent, "last_name", Text("")))
  {
    if Skipped(parent) then ""
    else
      var first := Show(Get(parent, "first_name", Text("")));
      var name := first + " " + Show(Get(parent, "last_name", Text("")));
      assert name[|first|] == ' ' && name[..|first|] == first;
      name
  }

  /** One age: `int(age)` when `age.isdigit()`, else 0; `None` when the lookup raises,
      which a boolean age does (a `bool` has no `isdigit`). */
  function AgeOf(parent: Dict): (age: Option<nat>)
    ensures age.None? <==> Get(parent, "age", Text("")).Flag?
    ensures forall s :: Get(parent, "age", Text("")) == Text(s) && IsDigits(s) ==> age == Some(DigitsValue(s))
    ensures forall s :: Get(parent, "age", Text("")) == Text(s) && !IsDigits(s) ==> age == Some(0)
  {
    match Get(parent, "age", Text(""))
    case Text(s) => Some(if IsDigits(s) then DigitsValue(s) else 0)
    case Flag(_) => None
  }

  /** The three ages share one `try`: when any of them raises, all three are 0. */
  function Ages(family: FamilyData): (ages: (nat, nat, nat))
    ensures AgeOf(family.father).Some? && AgeOf(family.mother).Some? && AgeOf(family.guardian).Some? ==>
              ages == (AgeOf(family.father).value, AgeOf(family.mother).value, AgeOf(family.guardian).value)
    ensures AgeOf(family.father).None? || AgeOf(family.mother).None? || AgeOf(family.guardian).None? ==>
              ages == (0, 0, 0)
  {
    match (AgeOf(family.father), AgeOf(family.mother), AgeOf(family.guardian))
    case (Some(f), Some(m), Some(g)) => (f, m, g)
    case _ => (0, 0, 0)
  }

  function Columns(parent: Dict, age: nat): ParentColumns {
    ParentColumns(ParentName(parent), age, Get(parent, "ethnicity", Text("")),
                  Get(parent, "occupation", Text("")), Get(parent, "education", Text("")))
  }

  /** The `family_background` row both stores insert. */
  function FamilyRowOf(family: FamilyData): FamilyRow {
    var ages := Ages(family);
    FamilyRow(Columns(family.father, ages.0), Columns(family.mother, ages.1), Columns(family.guardian, ages.2),
              Get(family.guardian, "contact", Text("")))
  }

  /** An age typed as digits is stored as the number it denotes. */
  lemma AgeStored(family: FamilyData, n: nat)
    requires Lookup(family.father, "age") == Some(Text(Decimal(n)))
    requires AgeOf(family.mother).Some? && AgeOf(family.guardian).Some?
    ensures FamilyRowOf(family).father.age == n
  {
    DecimalRoundTrip(n);
  }

  /** Skipping a parent blanks only the name: the age, ethnicity, occupation and
      education that its dictionary holds are stored all the same. */
  lemma SkippedParentKeepsDetails(family: FamilyData)
    requires Skipped(family.father)
    ensures FamilyRowOf(family).father.name == ""
    ensures FamilyRowOf(family).father.ethnicity == Get(family.father, "ethnicity", Text(""))
    ensures FamilyRowOf(family).father.occupation == Get(family.father, "occupation", Text(""))
    ensures FamilyRowOf(family).father.education == Get(family.father, "education", Text(""))
  {
  }
}
