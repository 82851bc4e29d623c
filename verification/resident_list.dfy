/**
 * The resident list: its search filter and the age shown for each resident,
 * together with the reading of a stored birth date that the age needs.
 */
module ResidentList {
  import opened Wrappers
  import opened Seqs
  import opened Text
  import opened Periods
  import opened Residents

  /**
   * The search predicate: case-insensitive on name, address and block,
   * case-sensitive on NIK, family-card number and house number.
   */
  predicate Matches(r: Resident, term: string) {
    || Includes(ToLower(r.nama), ToLower(term))
    || Includes(r.nik, term)
    || Includes(r.nomorKK, term)
    || Includes(ToLower(r.alamat), ToLower(term))
    || Includes(ToLower(r.blokRumah), ToLower(term))
    || Includes(r.nomorRumah, term)
  }

  /** The search predicate for one term, as the function `filter` is given. */
  function SearchFor(term: string): Resident -> bool {
    (r: Resident) => Matches(r, term)
  }

  /** Every resident matches the empty term, whose lower-case form is empty too. */
  lemma EmptyTermMatches(r: Resident)
    ensures Matches(r, "")
  {
    IncludesEmpty(r.nik);
  }

  /** `filteredResidents`: the residents the term matches, in their original order. */
  function FilterResidents(residents: seq<Resident>, term: string): (shown: seq<Resident>)
    ensures Subsequence(shown, residents)
    ensures forall i :: 0 <= i < |shown| ==> shown[i] in residents && Matches(shown[i], term)
    ensures forall i :: 0 <= i < |residents| && Matches(residents[i], term) ==> residents[i] in shown
    ensures term == "" ==> shown == residents
  {
    EmptySearchShowsAll(residents, term);
    FilterIsSubsequence(residents, SearchFor(term));
    Filter(residents, SearchFor(term))
  }

  /** With an empty search box nothing is filtered out. */
  lemma EmptySearchShowsAll(residents: seq<Resident>, term: string)
    ensures term == "" ==> Filter(residents, SearchFor(term)) == residents
  {
    if term == "" {
      forall i | 0 <= i < |residents|
        ensures SearchFor(term)(residents[i])
      {
        EmptyTermMatches(residents[i]);
      }
      FilterKeepAll(residents, SearchFor(term));
    }
  }

  /**
   * `calculateAge`: the difference of the calendar years, one less while this
   * year's birthday (month and day) is still to come.
   */
  function CalculateAge(today: Date, birth: Date): (age: int)
    ensures age == today.year - birth.year || age == today.year - birth.year - 1
    ensures age == today.year - birth.year - 1 <==>
              today.month < birth.month || (today.month == birth.month && today.day < birth.day)
  {
    var age := today.year - birth.year;
    var monthDiff := today.month - birth.month;
    if monthDiff < 0 || (monthDiff == 0 && today.day < birth.day) then age - 1 else age
  }

  /** Calendar order on dates: by year, then month, then day. */
  predicate OnOrBefore(a: Date, b: Date) {
    a.year < b.year
    || (a.year == b.year && (a.month < b.month || (a.month == b.month && a.day <= b.day)))
  }

  /** The `k`-th birthday of someone born on `birth`. */
  function Anniversary(birth: Date, k: int): Date {
    Date(birth.year + k, birth.month, birth.day)
  }

  /** The age is the number of birthdays reached: the last one is on or before today, the next is after it. */
  lemma AgeCountsBirthdays(today: Date, birth: Date)
    ensures OnOrBefore(Anniversary(birth, CalculateAge(today, birth)), today)
    ensures !OnOrBefore(Anniversary(birth, CalculateAge(today, birth) + 1), today)
  {
  }

  /** Only one count of birthdays has that property, so the age is determined by it. */
  lemma AgeIsUnique(today: Date, birth: Date, k: int)
    requires OnOrBefore(Anniversary(birth, k), today) && !OnOrBefore(Anniversary(birth, k + 1), today)
    ensures k == CalculateAge(today, birth)
  {
  }

  /** On the birthday itself the full year difference is reached. */
  lemma AgeOnBirthday(today: Date, birth: Date)
    requires today.month == birth.month && today.day == birth.day
    ensures CalculateAge(today, birth) == today.year - birth.year
  {
  }

  /**
   * `new Date(text)` for the stored birth dates, which are `yyyy-MM-dd`:
   * anything else is an invalid date.
   */
  function ParseIsoDate(s: string): (d: Option<Date>)
    ensures d.Some? ==> d.value.Valid() && d.value.year >= 0
    ensures d.Some? ==> |s| == 10 && s[4] == '-' && s[7] == '-'
  {
    if |s| == 10 && s[4] == '-' && s[7] == '-'
       && AllDigits(s[..4]) && AllDigits(s[5..7]) && AllDigits(s[8..])
    then
      var year, month, day := DigitsValue(s[..4]), DigitsValue(s[5..7]), DigitsValue(s[8..]);
      if 1 <= month <= 12 && 1 <= day <= 31 then Some(Date(year, month, day)) else None
    else None
  }

  /** A date written as `yyyy-MM-dd`. */
  function IsoDate(d: Date): string
    requires d.Valid() && d.year >= 0
  {
    Digits(d.year, 4) + "-" + Digits(d.month, 2) + "-" + Digits(d.day, 2)
  }

  /** Reading back a written date gives the same date, for four-digit years. */
  lemma ParseIsoDateRoundTrip(d: Date)
    requires d.Valid() && 0 <= d.year <= 9999
    ensures ParseIsoDate(IsoDate(d)) == Some(d)
  {
    var y, m, dd := Digits(d.year, 4), Digits(d.month, 2), Digits(d.day, 2);
    assert d.year < Pow10(4) && d.month < Pow10(2) && d.day < Pow10(2);
    DigitsShape(d.year, 4);
    DigitsShape(d.month, 2);
    DigitsShape(d.day, 2);
    DigitsRoundTrip(d.year, 4);
    DigitsRoundTrip(d.month, 2);
    DigitsRoundTrip(d.day, 2);
    var s := IsoDate(d);
    assert s == y + "-" + m + "-" + dd;
    assert s[..4] == y;
    assert s[5..7] == m;
    assert s[8..] == dd;
  }
}
