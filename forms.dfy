/** The registration form handed to the storage engine, and what an adapter returns. */
module Forms {
  import opened Values

  /** The `family` section: one dictionary per parent. A missing dictionary is empty,
      since every reader looks it up with a `{}` default. */
  datatype FamilyData = FamilyData(father: Dict, mother: Dict, guardian: Dict)

  /** The four sections of `form_data`; a missing section is an empty dictionary. */
  datatype Form = Form(personal: Dict, family: FamilyData, academic: Dict, emergency: Dict)

  /** `{}`: a form with every section missing. */
  const EmptyForm := Form([], FamilyData([], [], []), [], [])

  /** The triple both adapters return from `save_registration`: on success the
      reference code and the new student id, on failure an error message in the
      code position and no student id. */
  datatype SaveReturn = SaveReturn(ok: bool, code: Value, studentId: Option<nat>)

  function Failed(message: string): (r: SaveReturn)
    ensures !r.ok && r.studentId == None
  {
    SaveReturn(false, Text(message), None)
  }

  /** `form_data.setdefault("personal", {})["reference_code"] = code` */
  function WithReferenceCode(form: Form, code: Value): (r: Form)
    ensures Lookup(r.personal, "reference_code") == Some(code)
    ensures forall k :: k != "reference_code" ==> Lookup(r.personal, k) == Lookup(form.personal, k)
    ensures r.family == form.family && r.academic == form.academic && r.emergency == form.emergency
  {
    form.(personal := Put(form.personal, "reference_code", code))
  }

  /** `"Transferee" if personal.get("is_transferee", False) else "Freshmen"`: always one
      of the two values the MySQL `enrollment_type` ENUM admits. */
  function EnrollmentType(personal: Dict): (t: string)
    ensures t in {"Freshmen", "Transferee"}
    ensures t == "Transferee" <==> Truthy(Get(personal, "is_transferee", Flag(false)))
  {
    if Truthy(Get(personal, "is_transferee", Flag(false))) then "Transferee" else "Freshmen"
  }

  /** `"{street_address}, {barangay}, {city}, {province}"` */
  function Address(personal: Dict): string {
    Show(Get(personal, "street_address", Text(""))) + ", " + Show(Get(personal, "barangay", Text(""))) + ", "
    + Show(Get(personal, "city", Text(""))) + ", " + Show(Get(personal, "province", Text("")))
  }
}
