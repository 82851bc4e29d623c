/**
 * The resident record of the frontend, the `residents` table row it is stored
 * as, and the two field mappings between them (`fromDatabase`, `toDatabase`).
 */
module Residents {
  import opened Wrappers
  import opened Text

  /** The keys a family-member object may carry. */
  datatype MemberField =
    | Nama | Status | TanggalLahir | JenisKelamin | NoHp | Nik | Pekerjaan | StatusPerkawinan

  /**
   * A family member as the JavaScript object it is: only the keys present have
   * a value, so a partly filled object is a map with a smaller domain.
   */
  type FamilyMember = map<MemberField, string>

  const AllMemberFields: set<MemberField> :=
    {Nama, Status, TanggalLahir, JenisKelamin, NoHp, Nik, Pekerjaan, StatusPerkawinan}

  /** `emptyMember()` of the hook: every one of the eight keys present, all empty. */
  function EmptyMember(): (m: FamilyMember)
    ensures m.Keys == AllMemberFields
    ensures forall f :: f in m ==> m[f] == ""
  {
    map[Nama := "", Status := "", TanggalLahir := "", JenisKelamin := "", NoHp := "",
        Nik := "", Pekerjaan := "", StatusPerkawinan := ""]
  }

  /** A resident as the frontend holds it. */
  datatype Resident = Resident(
    id: string,
    nik: string,
    nomorKK: string,
    nama: string,
    noHpKepala: string,
    jumlahAnggota: int,
    anggotaKeluarga: seq<FamilyMember>,
    jenisKelamin: string,
    tanggalLahir: string,
    alamat: string,
    nomorRumah: string,
    blokRumah: string,
    rt: string,
    rw: string,
    statusKepemilikanRumah: string,
    nominalIPL: string,
    statusIPL: string)

  /** The columns of a `residents` row other than its id; `None` is SQL null. */
  datatype Columns = Columns(
    nik: string,
    nomorKk: string,
    nama: string,
    noHpKepala: Option<string>,
    jumlahAnggota: Option<int>,
    anggotaKeluarga: Option<seq<FamilyMember>>,
    jenisKelamin: string,
    tanggalLahir: string,
    alamat: Option<string>,
    nomorRumah: Option<string>,
    blokRumah: Option<string>,
    rt: Option<string>,
    rw: Option<string>,
    statusKepemilikanRumah: Option<string>,
    pekerjaan: Option<string>,
    statusPerkawinan: Option<string>,
    nominalIpl: Option<int>,
    statusIpl: Option<string>)

  /** A stored row: the id the database assigned, and the columns. */
  datatype Row = Row(id: string, columns: Columns)

  /** The eight optional text fields of a resident, in a fixed order. */
  function OptionalFields(r: Resident): seq<string> {
    [r.noHpKepala, r.alamat, r.nomorRumah, r.blokRumah, r.rt, r.rw, r.statusKepemilikanRumah, r.statusIPL]
  }

  /** The columns holding those eight fields, in the same order. */
  function OptionalColumns(c: Columns): seq<Option<string>> {
    [c.noHpKepala, c.alamat, c.nomorRumah, c.blokRumah, c.rt, c.rw, c.statusKepemilikanRumah, c.statusIpl]
  }

  /** JavaScript `text || ''` on a nullable column: null and "" both read as "". */
  function OrEmpty(o: Option<string>): string {
    match o
    case None => ""
    case Some(s) => s
  }

  /** JavaScript `text || null`: the empty string is stored as null. */
  function NullIfEmpty(s: string): Option<string> {
    if s == "" then None else Some(s)
  }

  /** JavaScript `nominal?.toString() || ''`: null reads as "", a number as its decimal text. */
  function NominalText(n: Option<int>): string {
    match n
    case None => ""
    case Some(v) => IntToString(v)
  }

  /** The text of a stored fee reads back as that fee, and is empty exactly when none is stored. */
  lemma NominalTextParses(n: Option<int>)
    ensures NominalText(n) == "" <==> n.None?
    ensures n.Some? ==> ParseDecimal(NominalText(n)) == n
  {
    if n.Some? {
      ParseIntToString(n.value);
    }
  }

  /**
   * JavaScript `text ? Number(text) : null`: "" is stored as null; text that is
   * not a decimal integer is NaN, which reaches the database as null too.
   */
  function NominalNumber(s: string): Option<int> {
    if s == "" then None else ParseDecimal(s)
  }

  /** `fromDatabase(row)`. */
  function FromDatabase(row: Row): (r: Resident)
    ensures r.id == row.id && r.nik == row.columns.nik && r.nomorKK == row.columns.nomorKk
    ensures r.nama == row.columns.nama && r.jenisKelamin == row.columns.jenisKelamin
    ensures r.tanggalLahir == row.columns.tanggalLahir
    ensures forall i :: 0 <= i < |OptionalFields(r)| ==>
              OptionalFields(r)[i] == (if OptionalColumns(row.columns)[i].Some?
                                       then OptionalColumns(row.columns)[i].value else "")
    ensures row.columns.jumlahAnggota.None? ==> r.jumlahAnggota == 0
    ensures row.columns.anggotaKeluarga.None? ==> r.anggotaKeluarga == []
    ensures row.columns.nominalIpl.None? <==> r.nominalIPL == ""
    ensures row.columns.nominalIpl.Some? ==> ParseDecimal(r.nominalIPL) == row.columns.nominalIpl
  {
    var c := row.columns;
    NominalTextParses(c.nominalIpl);
    Resident(
      row.id, c.nik, c.nomorKk, c.nama,
      OrEmpty(c.noHpKepala),
      c.jumlahAnggota.GetOr(0),
      c.anggotaKeluarga.GetOr([]),
      c.jenisKelamin, c.tanggalLahir,
      OrEmpty(c.alamat), OrEmpty(c.nomorRumah), OrEmpty(c.blokRumah), OrEmpty(c.rt), OrEmpty(c.rw),
      OrEmpty(c.statusKepemilikanRumah),
      NominalText(c.nominalIpl),
      OrEmpty(c.statusIpl))
  }

  /** `toDatabase(resident)`: every column except the id, which the database assigns. */
  function ToDatabase(r: Resident): (c: Columns)
    ensures c.nik == r.nik && c.nomorKk == r.nomorKK && c.nama == r.nama
    ensures c.jenisKelamin == r.jenisKelamin && c.tanggalLahir == r.tanggalLahir
    ensures forall i :: 0 <= i < |OptionalColumns(c)| ==>
              (OptionalColumns(c)[i].None? <==> OptionalFields(r)[i] == "")
              && (OptionalColumns(c)[i].Some? ==> OptionalColumns(c)[i].value == OptionalFields(r)[i])
    ensures c.jumlahAnggota == Some(r.jumlahAnggota)
    ensures c.anggotaKeluarga == Some(r.anggotaKeluarga)
    ensures c.pekerjaan.None? && c.statusPerkawinan.None?
    ensures r.nominalIPL == "" ==> c.nominalIpl.None?
  {
    Columns(
      r.nik, r.nomorKK, r.nama,
      NullIfEmpty(r.noHpKepala),
      Some(r.jumlahAnggota),
      Some(r.anggotaKeluarga),
      r.jenisKelamin, r.tanggalLahir,
      NullIfEmpty(r.alamat), NullIfEmpty(r.nomorRumah), NullIfEmpty(r.blokRumah),
      NullIfEmpty(r.rt), NullIfEmpty(r.rw), NullIfEmpty(r.statusKepemilikanRumah),
      None, None,
      NominalNumber(r.nominalIPL),
      NullIfEmpty(r.statusIPL))
  }

  /** The fee text a stored resident reads back with: its canonical decimal form, or "". */
  function NormalNominal(s: string): string {
    NominalText(NominalNumber(s))
  }

  /** A fee text that survives storage unchanged: empty, or a canonical decimal integer. */
  predicate CanonicalNominal(s: string) {
    s == "" || (ParseDecimal(s).Some? && IntToString(ParseDecimal(s).value) == s)
  }

  /**
   * Storing a resident and reading the row back returns the same resident,
   * except that its fee text is normalised.
   */
  lemma StoreThenLoad(r: Resident)
    ensures FromDatabase(Row(r.id, ToDatabase(r))) == r.(nominalIPL := NormalNominal(r.nominalIPL))
  {
  }

  /** For a canonical fee text the round trip through the table is exact. */
  lemma StoreThenLoadCanonical(r: Resident)
    requires CanonicalNominal(r.nominalIPL)
    ensures FromDatabase(Row(r.id, ToDatabase(r))) == r
  {
    StoreThenLoad(r);
  }

  /** Rows as `toDatabase` writes them: no empty text, the two moved columns null, counts present. */
  predicate Normal(c: Columns) {
    && (forall i :: 0 <= i < |OptionalColumns(c)| ==> OptionalColumns(c)[i] != Some(""))
    && c.jumlahAnggota.Some? && c.anggotaKeluarga.Some?
    && c.pekerjaan.None? && c.statusPerkawinan.None?
  }

  /** Loading a normal row and storing it again writes the same columns. */
  lemma LoadThenStore(row: Row)
    requires Normal(row.columns)
    ensures ToDatabase(FromDatabase(row)) == row.columns
  {
    var c := row.columns;
    assert OptionalColumns(c)[0] != Some("") && OptionalColumns(c)[1] != Some("");
    assert OptionalColumns(c)[2] != Some("") && OptionalColumns(c)[3] != Some("");
    assert OptionalColumns(c)[4] != Some("") && OptionalColumns(c)[5] != Some("");
    assert OptionalColumns(c)[6] != Some("") && OptionalColumns(c)[7] != Some("");
    NominalTextParses(c.nominalIpl);
  }
}
