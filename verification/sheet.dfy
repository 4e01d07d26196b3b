/**
 * The spreadsheet of caliper interventions, one record per caliper, before
 * and after the empty-cell defaults are filled in. Dates are abstract
 * (year, month, day) triples: the spreadsheet's date parsing is not modelled,
 * a cell that does not parse being simply absent.
 */
module Sheet {
  import opened Optional
  import opened Numerals

  datatype Ymd = Ymd(year: nat, month: nat, day: nat)

  predicate ValidDate(d: Ymd) {
    1000 <= d.year <= 9999 && 1 <= d.month <= 12 && 1 <= d.day <= 31
  }

  /** A calendar date as a parsed cell holds it; every such date has a four-digit year. */
  type Date = d: Ymd | ValidDate(d) witness Ymd(1970, 1, 1)

  /** A record as read: every text cell may be empty. */
  datatype RawRecord = RawRecord(
    parque: Option<string>,
    ano: Option<Date>,
    wtg: Option<string>,
    posicao: Option<string>,
    oring: Option<Date>,
    pastilha: Option<Date>,
    status: Option<string>,
    tecnico: Option<string>)

  /** A record after the defaults: the text cells are always present. */
  datatype Record = Record(
    parque: string,
    ano: Option<Date>,
    wtg: string,
    posicao: string,
    oring: Option<Date>,
    pastilha: Option<Date>,
    status: string,
    tecnico: string)

  const NotInformed: string := "Não Informado"

  /** `fillna(default)` on one cell. */
  function FillCell(v: Option<string>): (r: string)
    ensures v.Some? ==> r == v.value
    ensures v.None? ==> r == NotInformed
  {
    v.GetOr(NotInformed)
  }

  /**
   * The defaults: empty park, turbine, position, status and technician cells
   * become "Não Informado"; a technician recorded as "-" does too. Dates are
   * kept as they are.
   */
  function FillDefaults(raw: RawRecord): (r: Record)
    ensures r.parque == FillCell(raw.parque) && r.wtg == FillCell(raw.wtg)
    ensures r.posicao == FillCell(raw.posicao) && r.status == FillCell(raw.status)
    ensures r.tecnico == (if raw.tecnico == Some("-") then NotInformed else FillCell(raw.tecnico))
    ensures r.ano == raw.ano && r.oring == raw.oring && r.pastilha == raw.pastilha
  {
    var tecnico := FillCell(raw.tecnico);
    Record(FillCell(raw.parque), raw.ano, FillCell(raw.wtg), FillCell(raw.posicao),
           raw.oring, raw.pastilha, FillCell(raw.status), if tecnico == "-" then NotInformed else tecnico)
  }

  function FillAll(raws: seq<RawRecord>): (rs: seq<Record>)
    ensures |rs| == |raws|
    ensures forall i :: 0 <= i < |raws| ==> rs[i] == FillDefaults(raws[i])
  {
    seq(|raws|, i requires 0 <= i < |raws| => FillDefaults(raws[i]))
  }

  /** The technician is never left as "-", and filling twice changes nothing. */
  lemma FillDefaultsIdempotent(raw: RawRecord)
    ensures FillDefaults(raw).tecnico != "-"
    ensures var r := FillDefaults(raw);
      FillDefaults(RawRecord(Some(r.parque), r.ano, Some(r.wtg), Some(r.posicao), r.oring, r.pastilha,
                             Some(r.status), Some(r.tecnico))) == r
  {
  }

  /** Two decimal digits, zero-padded. */
  function Pad2(n: nat): (s: string)
    requires n < 100
    ensures |s| == 2 && Value(s, 10) == n
    ensures forall i :: 0 <= i < 2 ==> IsDigit(s[i], 10)
  {
    DigitCharValue(n / 10);
    DigitCharValue(n % 10);
    assert Value([DigitChar(n / 10)], 10) == n / 10;
    [DigitChar(n / 10), DigitChar(n % 10)]
  }

  /** `strftime('%Y-%m-%d')`: four-digit year, two-digit month and day. */
  function IsoDate(d: Date): (s: string)
    ensures |s| == 10 && s[4] == '-' && s[7] == '-'
    ensures Value(s[5..7], 10) == d.month && Value(s[8..10], 10) == d.day
    ensures forall i :: 0 <= i < 10 && i != 4 && i != 7 ==> IsDigit(s[i], 10)
  {
    var hi, lo, mm, dd := Pad2(d.year / 100), Pad2(d.year % 100), Pad2(d.month), Pad2(d.day);
    DateLayout(hi, lo, mm, dd);
    hi + lo + "-" + mm + "-" + dd
  }

  /** Where the four digit pairs sit in `YYYY-MM-DD`. */
  lemma DateLayout(hi: string, lo: string, mm: string, dd: string)
    requires |hi| == 2 && |lo| == 2 && |mm| == 2 && |dd| == 2
    requires forall i :: 0 <= i < 2 ==> IsDigit(hi[i], 10) && IsDigit(lo[i], 10) && IsDigit(mm[i], 10) && IsDigit(dd[i], 10)
    ensures var s := hi + lo + "-" + mm + "-" + dd;
      |s| == 10 && s[..4] == hi + lo && s[4] == '-' && s[5..7] == mm && s[7] == '-' && s[8..10] == dd &&
      forall i :: 0 <= i < 10 && i != 4 && i != 7 ==> IsDigit(s[i], 10)
  {
    var s := hi + lo + "-" + mm + "-" + dd;
    forall i | 0 <= i < 10 && i != 4 && i != 7
      ensures IsDigit(s[i], 10)
    {
      if i < 2 { assert s[i] == hi[i]; }
      else if i < 4 { assert s[i] == lo[i - 2]; }
      else if i < 7 { assert s[i] == mm[i - 5]; }
      else { assert s[i] == dd[i - 8]; }
    }
  }

  /** The year field reads back as the year. */
  lemma IsoDateYear(d: Date)
    ensures Value(IsoDate(d)[..4], 10) == d.year
  {
    var hi, lo, mm, dd := Pad2(d.year / 100), Pad2(d.year % 100), Pad2(d.month), Pad2(d.day);
    DateLayout(hi, lo, mm, dd);
    assert IsoDate(d)[..4] == hi + lo;
    ValueAppend2(hi, lo);
  }

  /** Reading two concatenated digit pairs. */
  lemma ValueAppend2(hi: string, lo: string)
    requires |hi| == 2 && |lo| == 2
    ensures Value(hi + lo, 10) == Value(hi, 10) * 100 + Value(lo, 10)
  {
    var s := hi + lo;
    var a, b := DigitValue(lo[0]), DigitValue(lo[1]);
    assert s[..3] == hi + [lo[0]];
    assert (hi + [lo[0]])[..2] == hi;
    assert Value(hi + [lo[0]], 10) == Value(hi, 10) * 10 + a;
    assert Value(s, 10) == Value(s[..3], 10) * 10 + b;
    assert lo[..1] == [lo[0]] && [lo[0]][..0] == [];
    assert Value([lo[0]], 10) == a;
    assert Value(lo, 10) == Value(lo[..1], 10) * 10 + b;
  }
}
