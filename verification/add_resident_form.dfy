/**
 * The add-resident form: its state, resizing the family-member list when the
 * member count is chosen, and submitting with required-field validation.
 */
module AddResidentForm {
  import opened Wrappers
  import opened Text
  import opened Seqs
  import opened Residents
  import opened FamilyMemberFields

  /** The form's own `emptyMember()`: only three of the keys are set. */
  function FormEmptyMember(): (m: FamilyMember)
    ensures m.Keys == {Nama, TanggalLahir, NoHp}
    ensures forall f :: f in m ==> m[f] == ""
  {
    map[Nama := "", TanggalLahir := "", NoHp := ""]
  }

  /** `Array(n).fill(null).map(() => emptyMember())`. */
  function EmptyMembers(n: nat): seq<FamilyMember> {
    seq(n, _ => FormEmptyMember())
  }

  /** The fifteen text inputs of the form. */
  datatype FormData = FormData(
    nik: string,
    nomorKK: string,
    nama: string,
    noHpKepala: string,
    jenisKelamin: string,
    tanggalLahir: string,
    alamat: string,
    nomorRumah: string,
    blokRumah: string,
    rt: string,
    rw: string,
    pekerjaan: string,
    statusPerkawinan: string,
    nominalIPL: string,
    statusIPL: string)

  const BlankForm: FormData := FormData("", "", "", "", "", "", "", "", "", "", "", "", "", "", "")

  /** The component state: the inputs, the chosen member count as text, and the member list. */
  datatype FormState = FormState(formData: FormData, jumlahAnggota: string, anggotaKeluarga: seq<FamilyMember>)

  /** The chosen count, read as a number, is the length of the member list. */
  predicate Consistent(s: FormState) {
    ParseDecimal(s.jumlahAnggota) == Some(|s.anggotaKeluarga|)
  }

  /** The state the form starts in, and returns to after a submit. */
  function InitialState(): (s: FormState)
    ensures Consistent(s)
    ensures s.formData == BlankForm && s.jumlahAnggota == "0" && s.anggotaKeluarga == []
  {
    ParseIntToString(0);
    FormState(BlankForm, "0", [])
  }

  /**
   * The end index `list.slice(0, count)` uses: a negative count counts back
   * from the end, and the index is clamped to the list.
   */
  function SliceEnd(count: int, length: nat): (e: nat)
    ensures e <= length
  {
    if count >= 0 then (if count <= length then count else length)
    else if length + count >= 0 then length + count
    else 0
  }

  /**
   * The list update of `handleJumlahChange`: a count that is not a number
   * (NaN) compares false both ways and leaves the list alone.
   */
  function Resize(members: seq<FamilyMember>, count: Option<int>): seq<FamilyMember> {
    match count
    case None => members
    case Some(c) =>
      if c > |members| then members + EmptyMembers(c - |members|)
      else if c < |members| then members[..SliceEnd(c, |members|)]
      else members
  }

  /** `handleJumlahChange(value)`. */
  function HandleJumlahChange(s: FormState, value: string): (r: FormState)
    ensures r.jumlahAnggota == value && r.formData == s.formData
    ensures var c := ParseDecimal(value);
            c.Some? && c.value >= 0 ==> |r.anggotaKeluarga| == c.value
    ensures var c := ParseDecimal(value);
            c.Some? && c.value >= |s.anggotaKeluarga| ==>
              && IsPrefix(s.anggotaKeluarga, r.anggotaKeluarga)
              && forall i :: |s.anggotaKeluarga| <= i < |r.anggotaKeluarga| ==> r.anggotaKeluarga[i] == FormEmptyMember()
    ensures var c := ParseDecimal(value);
            c.Some? && 0 <= c.value <= |s.anggotaKeluarga| ==> r.anggotaKeluarga == s.anggotaKeluarga[..c.value]
    ensures ParseDecimal(value) == Some(|s.anggotaKeluarga|) ==> r.anggotaKeluarga == s.anggotaKeluarga
    ensures ParseDecimal(value).None? ==> r.anggotaKeluarga == s.anggotaKeluarga
  {
    var members := Resize(s.anggotaKeluarga, ParseDecimal(value));
    assert |s.anggotaKeluarga| <= |members| ==> members[..|s.anggotaKeluarga|] == s.anggotaKeluarga;
    FormState(s.formData, value, members)
  }

  /** What `onAddResident` receives: the inputs, the parsed count and the member list. */
  datatype Submission = Submission(data: FormData, jumlahAnggota: int, anggotaKeluarga: seq<FamilyMember>)

  /** The required-field condition under which `handleSubmit` sends nothing. */
  predicate MissingRequired(d: FormData) {
    d.nik == "" || d.nomorKK == "" || d.nama == "" || d.jenisKelamin == "" || d.tanggalLahir == ""
  }

  /** The outcome of a submit: what was sent, if anything, and the state afterwards. */
  datatype SubmitResult = SubmitResult(sent: Option<Submission>, next: FormState)

  /** `handleSubmit`. */
  function HandleSubmit(s: FormState): (r: SubmitResult)
    ensures r.sent.None? <==> MissingRequired(s.formData)
    ensures r.sent.None? ==> r.next == s
    ensures r.sent.Some? ==>
              && r.sent.value.data == s.formData
              && r.sent.value.anggotaKeluarga == s.anggotaKeluarga
              && r.next == InitialState()
    ensures r.sent.Some? && Consistent(s) ==> r.sent.value.jumlahAnggota == |s.anggotaKeluarga|
  {
    if MissingRequired(s.formData) then SubmitResult(None, s)
    else
      var sent := Submission(s.formData, ParseDecimal(s.jumlahAnggota).GetOr(0), s.anggotaKeluarga);
      SubmitResult(Some(sent), InitialState())
  }

  /** Everything the user can do to the form. */
  datatype FormEvent =
    | FieldsEdited(data: FormData)
    | CountChosen(value: string)
    | MemberEdited(index: int, field: MemberField, value: string)
    | Submitted

  /**
   * The events the form can produce in state `s`: the count select offers the
   * numbers 0 to 10, and members are edited through their own row's inputs.
   */
  predicate Possible(s: FormState, e: FormEvent) {
    match e
    case FieldsEdited(_) => true
    case CountChosen(v) => ParseDecimal(v).Some? && 0 <= ParseDecimal(v).value <= 10
    case MemberEdited(i, f, _) => 0 <= i < |s.anggotaKeluarga| && f in EditableFields
    case Submitted => true
  }

  /** One event's effect on the state. */
  function Step(s: FormState, e: FormEvent): FormState
    requires Possible(s, e)
  {
    match e
    case FieldsEdited(d) => s.(formData := d)
    case CountChosen(v) => HandleJumlahChange(s, v)
    case MemberEdited(i, f, v) => s.(anggotaKeluarga := UpdateMember(s.anggotaKeluarga, i, f, v))
    case Submitted => HandleSubmit(s).next
  }

  /** A session of events, stopping at the first one the form could not have produced. */
  function Run(s: FormState, events: seq<FormEvent>): FormState
    decreases |events|
  {
    if events == [] || !Possible(s, events[0]) then s
    else Run(Step(s, events[0]), events[1..])
  }

  /** Every single event keeps the chosen count equal to the number of members. */
  lemma StepKeepsConsistent(s: FormState, e: FormEvent)
    requires Consistent(s) && Possible(s, e)
    ensures Consistent(Step(s, e))
  {
    match e
    case FieldsEdited(_) =>
    case CountChosen(v) =>
    case MemberEdited(i, f, v) =>
    case Submitted =>
  }

  /** From the initial state, the count and the member list agree after any session. */
  lemma {:induction false} RunKeepsConsistent(s: FormState, events: seq<FormEvent>)
    requires Consistent(s)
    ensures Consistent(Run(s, events))
    decreases |events|
  {
    if events != [] && Possible(s, events[0]) {
      StepKeepsConsistent(s, events[0]);
      RunKeepsConsistent(Step(s, events[0]), events[1..]);
    }
  }

  /** Whatever the user did before, a submitted count equals the number of members sent. */
  lemma SubmittedCountMatches(events: seq<FormEvent>)
    ensures var s := Run(InitialState(), events);
            HandleSubmit(s).sent.Some? ==>
              HandleSubmit(s).sent.value.jumlahAnggota == |HandleSubmit(s).sent.value.anggotaKeluarga|
  {
    RunKeepsConsistent(InitialState(), events);
  }
}
