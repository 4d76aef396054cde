/** The world map's year notes (js/main.js, `annotations` and
    `updateAnnotation`), and the decimal rendering of a year that the playback
    uses to key them. */
module WorldAnnotations {
  import opened Common

  /** The years `annotations` has a note for, in three runs of seven. */
  const EarlyYears: set<int> := {1961, 1973, 1975, 1978, 1980, 1989, 1991}
  const MiddleYears: set<int> := {1992, 1994, 1997, 1998, 2001, 2003, 2008}
  const LateYears: set<int> := {2010, 2011, 2015, 2017, 2020, 2022, 2023}
  const AnnotatedYears: set<int> := EarlyYears + MiddleYears + LateYears

  /** A key made of four decimal digits. */
  predicate IsYearKey(key: string)
  {
    |key| == 4 && forall i :: 0 <= i < 4 ==> '0' <= key[i] <= '9'
  }

  /** The number a four-digit key spells. */
  function YearNumber(key: string): (n: int)
    requires IsYearKey(key)
    ensures 0 <= n < 10000
  {
    (key[0] as int - '0' as int) * 1000 + (key[1] as int - '0' as int) * 100
    + (key[2] as int - '0' as int) * 10 + (key[3] as int - '0' as int)
  }

  /** The keys of `annotations`: the year whose note is stored under `key`,
      or `None` when `key` is not one of the object's keys. Every key of the
      object is the four digits of an annotated year. */
  function NoteYear(key: string): Option<int>
  {
    if IsYearKey(key) && YearNumber(key) in AnnotatedYears then Some(YearNumber(key)) else None
  }

  /** The values of `annotations`: the note written for an annotated year
      (only read through `NoteYear`). */
  function NoteText(year: int): string
  {
    match year
    case 1961 => "Post-colonial independence movements in Africa and Asia drove urban migration as new governments invested in cities."
    case 1973 => "The global oil crisis disrupted economies, especially in developing nations, slowing urban development and investment."
    case 1975 => "The Khmer Rouge seized control of Cambodia, leading to a genocide that killed an estimated 1.7 million people. Cities were emptied as people were forced into rural labor camps."
    case 1978 => "China began its economic reforms and 'Open Door Policy', accelerating urbanization through rapid industrial development and rural-to-urban migration."
    case 1980 => "Structural Adjustment Programs from the IMF and World Bank led to austerity measures in Latin America and Africa, reducing urban infrastructure growth."
    case 1989 => "The fall of the Berlin Wall marked a shift in Eastern Europe, leading to economic restructuring and significant rural depopulation in favor of urban centers."
    case 1991 => "The fall of the Soviet Union caused major shifts in Eastern Europe and Central Asia. Urban areas declined due to economic collapse and industrial slowdown."
    case 1992 => "Following the breakup of Yugoslavia, the Bosnian War began. The Siege of Sarajevo and ethnic cleansing campaigns led to mass displacement and long-term urban decline."
    case 1994 => "The Rwandan Genocide and regional conflict led to massive rural displacement, altering urban growth in Central Africa. South Africa held its first democratic election, initiating post-apartheid policies that affected urban migration and access to city infrastructure."
    case 1997 => "The Asian Financial Crisis hit many Southeast Asian countries, slowing urban investment and halting infrastructure growth in cities like Jakarta, Bangkok, and Manila."
    case 1998 => "A downward trend in Kazakhstan due to an unfair presidential campaign and persecution of the opposition. The country also faced challenges related to human rights, including discrimination in favor of ethnic Kazakhs and limitations on worker rights."
    case 2001 => "9/11 caused a short-term freeze in global economic activity and urban investment, especially in the U.S. and Western Europe. China joined the World Trade Organization (WTO), boosting urban export hubs and accelerating migration into industrial cities like Shenzhen and Guangzhou."
    case 2003 => "The conflict in Darfur, Sudan escalated into a genocide, with large-scale displacement from rural areas and overburdening of urban centers like Nyala and Khartoum."
    case 2008 => "The global financial crisis halted many urban development projects, particularly in emerging economies like Brazil, India, and parts of Eastern Europe. Housing and development slumped in urban areas across the U.S. and Spain."
    case 2010 => "The Haiti earthquake devastated Port-au-Prince, causing massive urban displacement and long-term impact on city growth."
    case 2011 => "The Arab Spring sparked conflicts in Syria, Libya, and beyond, reversing urban growth in several Middle Eastern and North African countries."
    case 2015 => "Refugee influxes into European and Middle Eastern cities due to conflicts in Syria and Afghanistan spurred rapid urban demographic shifts. Cities like Berlin and Athens faced intense infrastructure strain."
    case 2017 => "The Myanmar military's persecution of the Rohingya led to over 700,000 refugees fleeing to Bangladesh. Northern Myanmar's urban population was severely affected by the loss of an entire ethnic group."
    case 2020 => "COVID-19 disrupted urban life worldwide. Migration to cities slowed due to lockdowns, economic uncertainty, and rising remote work trends. Some urban residents relocated to rural areas."
    case 2022 => "Russia's invasion of Ukraine reversed urbanization trends as war damaged infrastructure and displaced millions from cities."
    case 2023 => "Post-COVID recovery resumed in many cities, but urban growth was uneven due to inflation, climate impacts, and geopolitical tensions."
    case _ => ""
  }

  /** `annotations[key]`: the stored note, or `undefined`. The object holds a
      note exactly under the decimal text of each annotated year. */
  function StoredNote(key: string): (r: Option<string>)
    ensures r.Some? <==> exists y :: y in AnnotatedYears && key == NumberString(y)
    ensures r.Some? ==> exists y :: y in AnnotatedYears && key == NumberString(y) && r.value == NoteText(y)
  {
    NoteKeys(key);
    match NoteYear(key)
    case Some(y) => Some(NoteText(y))
    case None => None
  }

  /** `updateAnnotation(selectedYear)`: the text the annotation paragraph
      shows. A stored note is shown when it is truthy, and an empty stored
      note would show as empty text too, so the paragraph always shows the
      stored note when there is one and empty text when there is none. */
  function Annotation(selectedYear: string): (r: string)
    ensures StoredNote(selectedYear).Some? ==> r == StoredNote(selectedYear).value
    ensures StoredNote(selectedYear).None? ==> r == ""
  {
    match StoredNote(selectedYear)
    case Some(note) => if note != "" then note else ""
    case None => ""
  }

  /** `n.toString()` for a non-negative integer: its decimal digits, without
      leading zeros. */
  function NatString(n: nat): (r: string)
    ensures 1 <= |r|
    ensures forall i :: 0 <= i < |r| ==> '0' <= r[i] <= '9'
    ensures r[0] == '0' ==> n == 0
  {
    if n < 10 then [DigitChar(n)] else NatString(n / 10) + [DigitChar(n % 10)]
  }

  /** `n.toString()` for an integer. */
  function NumberString(n: int): (r: string)
    ensures n >= 0 ==> r == NatString(n)
    ensures n < 0 ==> r == "-" + NatString(-n)
  {
    if n < 0 then "-" + NatString(-n) else NatString(n)
  }

  /** A four-digit year renders as its four digits. */
  lemma FourDigits(n: nat)
    requires 1000 <= n <= 9999
    ensures NumberString(n)
         == [DigitChar(n / 10 / 10 / 10), DigitChar(n / 10 / 10 % 10), DigitChar(n / 10 % 10), DigitChar(n % 10)]
  {
    var a := n / 10;
    var b := a / 10;
    var c := b / 10;
    assert NatString(c) == [DigitChar(c)];
    assert NatString(b) == NatString(c) + [DigitChar(b % 10)];
    assert NatString(a) == NatString(b) + [DigitChar(a % 10)];
  }

  /** A four-digit number's text is a four-digit key spelling it. */
  lemma YearKeyOf(n: int)
    requires 1000 <= n <= 9999
    ensures IsYearKey(NumberString(n)) && YearNumber(NumberString(n)) == n
  {
    FourDigits(n);
    var key := NumberString(n);
    assert key[0] as int - '0' as int == n / 10 / 10 / 10;
    assert key[1] as int - '0' as int == n / 10 / 10 % 10;
    assert key[2] as int - '0' as int == n / 10 % 10;
    assert key[3] as int - '0' as int == n % 10;
  }

  /** A four-digit key without a leading zero is the text of the number it
      spells. */
  lemma YearKeyRoundTrip(key: string)
    requires IsYearKey(key) && 1000 <= YearNumber(key)
    ensures NumberString(YearNumber(key)) == key
  {
    var n := YearNumber(key);
    FourDigits(n);
    assert n / 10 / 10 / 10 == key[0] as int - '0' as int;
    assert n / 10 / 10 % 10 == key[1] as int - '0' as int;
    assert n / 10 % 10 == key[2] as int - '0' as int;
    assert n % 10 == key[3] as int - '0' as int;
  }

  /** There are 21 annotated years. */
  lemma AnnotatedYearsCount()
    ensures |AnnotatedYears| == 21
  {
    RunCounts();
    RunsDisjoint();
    assert |EarlyYears + MiddleYears| == 14;
  }

  /** Each run holds seven years. */
  lemma RunCounts()
    ensures |EarlyYears| == 7 && |MiddleYears| == 7 && |LateYears| == 7
  {
  }

  /** The runs do not overlap. */
  lemma RunsDisjoint()
    ensures EarlyYears * MiddleYears == {} && (EarlyYears + MiddleYears) * LateYears == {}
  {
    assert forall y :: y in EarlyYears ==> y < 1992;
    assert forall y :: y in MiddleYears ==> 1992 <= y < 2010;
    assert forall y :: y in LateYears ==> 2010 <= y;
  }

  /** The text of a four-digit year is a key exactly when the year is
      annotated, and then it selects that year. */
  lemma NoteYearOfYear(y: int)
    requires 1000 <= y <= 9999
    ensures NoteYear(NumberString(y)) == if y in AnnotatedYears then Some(y) else None
  {
    YearKeyOf(y);
  }

  /** The keys of `annotations` are exactly the texts of the annotated years. */
  lemma NoteKeys(key: string)
    ensures NoteYear(key).Some? ==> NoteYear(key).value in AnnotatedYears && key == NumberString(NoteYear(key).value)
    ensures NoteYear(key).None? ==> forall y :: y in AnnotatedYears ==> key != NumberString(y)
  {
    if NoteYear(key).Some? {
      YearKeyRoundTrip(key);
    } else {
      forall y | y in AnnotatedYears
        ensures key != NumberString(y)
      {
        NoteYearOfYear(y);
      }
    }
  }

  /** The paragraph for a four-digit year: its note when the year is
      annotated, and empty text otherwise. */
  lemma AnnotationOfYear(y: int)
    requires 1000 <= y <= 9999
    ensures Annotation(NumberString(y)) == if y in AnnotatedYears then NoteText(y) else ""
  {
    NoteYearOfYear(y);
  }

  /** The text of 1975 is a key and yields its note. */
  lemma AnnotationOf1975()
    ensures Annotation(NumberString(1975)) == NoteText(1975)
  {
    AnnotationOfYear(1975);
  }

  /** The slider's string "1975" is a key and yields its note. */
  lemma SliderAnnotationOf1975()
    ensures Annotation("1975") == NoteText(1975)
  {
    assert IsYearKey("1975");
    assert YearNumber("1975") == 1975;
  }

  /** The text of 1976 is not a key, so the paragraph is cleared. */
  lemma AnnotationOf1976()
    ensures Annotation(NumberString(1976)) == ""
  {
    assert 1976 !in EarlyYears && 1976 !in MiddleYears && 1976 !in LateYears;
    AnnotationOfYear(1976);
  }

  /** The slider's string "1976" is not a key, so the paragraph is cleared. */
  lemma SliderAnnotationOf1976()
    ensures Annotation("1976") == ""
  {
    assert IsYearKey("1976");
    assert YearNumber("1976") == 1976;
    assert 1976 !in EarlyYears && 1976 !in MiddleYears && 1976 !in LateYears;
  }
}
