/** The statistics the dashboard shows over all residents. */
module Dashboard {
  import opened Wrappers
  import opened Seqs
  import opened Text
  import opened Periods
  import opened Residents
  import opened ResidentList

  /** The figures of the dashboard cards. */
  datatype Stats = Stats(
    total: int,
    male: int,
    female: int,
    children: int,
    uniqueKK: int,
    totalIPL: int,
    iplLunas: int)

  function IsMale(): Resident -> bool {
    (r: Resident) => r.jenisKelamin == "Laki-laki"
  }

  function IsFemale(): Resident -> bool {
    (r: Resident) => r.jenisKelamin == "Perempuan"
  }

  function IsSettled(): Resident -> bool {
    (r: Resident) => r.statusIPL == "Lunas"
  }

  /**
   * Younger than 18 on `today` by the list's age rule; a birth date that does
   * not read as a date gives no age (NaN) and is not counted.
   */
  function IsChild(today: Date): Resident -> bool {
    (r: Resident) =>
      match ParseIsoDate(r.tanggalLahir)
      case None => false
      case Some(birth) => CalculateAge(today, birth) < 18
  }

  /** `Number(text) || 0`: the fee as a number, or 0 when it is empty or not a number. */
  function NumberOrZero(s: string): int {
    ParseDecimal(s).GetOr(0)
  }

  /** `residents.reduce((sum, r) => sum + (Number(r.nominalIPL) || 0), 0)`. */
  function SumIpl(residents: seq<Resident>): int
    decreases |residents|
  {
    if residents == [] then 0
    else SumIpl(residents[..|residents| - 1]) + NumberOrZero(residents[|residents| - 1].nominalIPL)
  }

  /** `new Set(residents.map(r => r.nomorKK))`, built in list order. */
  function KKSet(residents: seq<Resident>): set<string>
    decreases |residents|
  {
    if residents == [] then {}
    else KKSet(residents[..|residents| - 1]) + {residents[|residents| - 1].nomorKK}
  }

  /** The `stats` memo. */
  function ComputeStats(residents: seq<Resident>, today: Date): (st: Stats)
    ensures st.total == |residents|
    ensures 0 <= st.male && 0 <= st.female && st.male + st.female <= st.total
    ensures 0 <= st.children <= st.total && 0 <= st.iplLunas <= st.total
    ensures st.uniqueKK <= st.total && (st.total >= 1 ==> st.uniqueKK >= 1)
    ensures residents == [] ==> st == Stats(0, 0, 0, 0, 0, 0, 0)
  {
    FilterDisjointCount(residents, IsMale(), IsFemale());
    KKSetSize(residents);
    Stats(
      |residents|,
      |Filter(residents, IsMale())|,
      |Filter(residents, IsFemale())|,
      |Filter(residents, IsChild(today))|,
      |KKSet(residents)|,
      SumIpl(residents),
      |Filter(residents, IsSettled())|)
  }

  /** The set holds exactly the family-card numbers that occur in the list. */
  lemma {:induction false} KKSetMembers(residents: seq<Resident>, kk: string)
    ensures kk in KKSet(residents) <==> exists i :: 0 <= i < |residents| && residents[i].nomorKK == kk
    decreases |residents|
  {
    if residents != [] {
      var init := residents[..|residents| - 1];
      KKSetMembers(init, kk);
      if exists i :: 0 <= i < |init| && init[i].nomorKK == kk {
        var i :| 0 <= i < |init| && init[i].nomorKK == kk;
        assert residents[i] == init[i];
      }
      if exists i :: 0 <= i < |residents| && residents[i].nomorKK == kk {
        var i :| 0 <= i < |residents| && residents[i].nomorKK == kk;
        if i < |init| {
          assert init[i] == residents[i];
        }
      }
    }
  }

  /** No more distinct family cards than residents, and at least one when there is a resident. */
  lemma {:induction false} KKSetSize(residents: seq<Resident>)
    ensures |KKSet(residents)| <= |residents|
    ensures residents != [] ==> |KKSet(residents)| >= 1
    decreases |residents|
  {
    if residents != [] {
      var init := residents[..|residents| - 1];
      KKSetSize(init);
      var kk := residents[|residents| - 1].nomorKK;
      if kk in KKSet(init) {
        assert KKSet(residents) == KKSet(init);
      } else {
        assert |KKSet(init) + {kk}| == |KKSet(init)| + 1;
      }
    }
  }

  /** Family-card numbers that never repeat. */
  predicate DistinctKK(residents: seq<Resident>) {
    forall i, j :: 0 <= i < j < |residents| ==> residents[i].nomorKK != residents[j].nomorKK
  }

  /** The number of distinct family cards equals the number of residents exactly when no card repeats. */
  lemma {:induction false} UniqueKKCountsEveryone(residents: seq<Resident>)
    ensures |KKSet(residents)| == |residents| <==> DistinctKK(residents)
    decreases |residents|
  {
    if residents != [] {
      var init := residents[..|residents| - 1];
      var kk := residents[|residents| - 1].nomorKK;
      UniqueKKCountsEveryone(init);
      KKSetSize(init);
      KKSetMembers(init, kk);
      if kk in KKSet(init) {
        assert KKSet(residents) == KKSet(init);
        var i :| 0 <= i < |init| && init[i].nomorKK == kk;
        assert residents[i].nomorKK == residents[|residents| - 1].nomorKK;
      } else {
        assert |KKSet(init) + {kk}| == |KKSet(init)| + 1;
        if DistinctKK(init) {
          forall i, j | 0 <= i < j < |residents|
            ensures residents[i].nomorKK != residents[j].nomorKK
          {
            assert residents[i] == init[i];
            if j < |init| {
              assert residents[j] == init[j];
            }
          }
        }
        if DistinctKK(residents) {
          forall i, j | 0 <= i < j < |init|
            ensures init[i].nomorKK != init[j].nomorKK
          {
            assert init[i] == residents[i] && init[j] == residents[j];
          }
        }
      }
    }
  }

  /** The fee total of two lists of residents is the sum of their totals. */
  lemma {:induction false} SumIplAppend(a: seq<Resident>, b: seq<Resident>)
    ensures SumIpl(a + b) == SumIpl(a) + SumIpl(b)
    decreases |b|
  {
    if b == [] {
      assert a + b == a;
    } else {
      var binit := b[..|b| - 1];
      SumIplAppend(a, binit);
      assert (a + b)[..|a + b| - 1] == a + binit;
    }
  }

  /** The fees stored in the rows, null counted as 0. */
  function StoredFees(rows: seq<Row>): int
    decreases |rows|
  {
    if rows == [] then 0
    else StoredFees(rows[..|rows| - 1]) + rows[|rows| - 1].columns.nominalIpl.GetOr(0)
  }

  /** For residents loaded from the table, the fee total is the sum of the stored fees. */
  lemma {:induction false} TotalIplOfLoadedRows(rows: seq<Row>, residents: seq<Resident>)
    requires |residents| == |rows|
    requires forall i :: 0 <= i < |rows| ==> residents[i] == FromDatabase(rows[i])
    ensures SumIpl(residents) == StoredFees(rows)
    decreases |rows|
  {
    if rows != [] {
      var n := |rows| - 1;
      TotalIplOfLoadedRows(rows[..n], residents[..n]);
      NominalTextParses(rows[n].columns.nominalIpl);
      assert residents[n].nominalIPL == NominalText(rows[n].columns.nominalIpl);
    }
  }
}
