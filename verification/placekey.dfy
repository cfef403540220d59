/**
  The names that live in the cache's one flat key space: place keys
  "screening_row_seat", index sets named by a decimal screening id, and
  reservation records named by a version 4 UUID.
 */
module PlaceKeys {
  import opened Strings

  datatype Place = Place(row: int32, seat: int32)

  // getKeyForPlace
  function PlaceKey(screening: int64, place: Place): string {
    PrintInt(screening) + "_" + PrintInt(place.row) + "_" + PrintInt(place.seat)
  }

  datatype ParsedKey = ParsedKey(screening: int64, row: int32, seat: int32, ok: bool)

  const LIMIT32: int := 0x8000_0000
  const LIMIT64: int := 0x8000_0000_0000_0000

  // parseKeyForPlace: on an error the results keep what was parsed so far.
  function ParseKey(key: string): ParsedKey {
    var parts := Split(key, '_');
    if |parts| != 3 then ParsedKey(0, 0, 0, false)
    else match ParseInt(parts[0], LIMIT64)
      case BadSyntax => ParsedKey(0, 0, 0, false)
      case OutOfRange(clamped) => ParsedKey(clamped, 0, 0, false)
      case Parsed(screening) =>
        match ParseInt(parts[1], LIMIT32)
        case BadSyntax => ParsedKey(screening, 0, 0, false)
        case OutOfRange(_) => ParsedKey(screening, 0, 0, false)
        case Parsed(row) =>
          match ParseInt(parts[2], LIMIT32)
          case Parsed(seat) => ParsedKey(screening, row, seat, true)
          case _ => ParsedKey(screening, row, 0, false)
  }

  lemma JoinThree(a: string, b: string, c: string)
    ensures Join([a, b, c], '_') == a + "_" + b + "_" + c
  {
    assert [a, b, c][1..] == [b, c];
    assert [b, c][1..] == [c];
    assert Join([b, c], '_') == b + "_" + c;
    assert a + "_" + (b + "_" + c) == a + "_" + b + "_" + c;
  }

  lemma ParsePlaceKey(screening: int64, place: Place)
    ensures Split(PlaceKey(screening, place), '_') == [PrintInt(screening), PrintInt(place.row), PrintInt(place.seat)]
    ensures ParseKey(PlaceKey(screening, place)) == ParsedKey(screening, place.row, place.seat, true)
  {
    var parts := [PrintInt(screening), PrintInt(place.row), PrintInt(place.seat)];
    PrintIntChars(screening);
    PrintIntChars(place.row);
    PrintIntChars(place.seat);
    JoinThree(parts[0], parts[1], parts[2]);
    SplitJoin(parts, '_');
    ParsePrintInt(screening, LIMIT64);
    ParsePrintInt(place.row, LIMIT32);
    ParsePrintInt(place.seat, LIMIT32);
  }

  // A key has three parts, each a number in range; otherwise parsing keeps what came before
  // the first part that is not, and of a screening out of range the nearest one in it.
  lemma ParseKeyExact(key: string)
    ensures |Split(key, '_')| != 3 ==> ParseKey(key) == ParsedKey(0, 0, 0, false)
    ensures |Split(key, '_')| == 3 ==>
              var screening := ParseInt(Split(key, '_')[0], 0x8000_0000_0000_0000);
              var row := ParseInt(Split(key, '_')[1], 0x8000_0000);
              var seat := ParseInt(Split(key, '_')[2], 0x8000_0000);
              && (screening.BadSyntax? ==> ParseKey(key) == ParsedKey(0, 0, 0, false))
              && (screening.OutOfRange? ==> ParseKey(key) == ParsedKey(screening.clamped, 0, 0, false))
              && (screening.Parsed? && !row.Parsed? ==> ParseKey(key) == ParsedKey(screening.value, 0, 0, false))
              && (screening.Parsed? && row.Parsed? && !seat.Parsed? ==>
                    ParseKey(key) == ParsedKey(screening.value, row.value, 0, false))
              && (screening.Parsed? && row.Parsed? && seat.Parsed? ==>
                    ParseKey(key) == ParsedKey(screening.value, row.value, seat.value, true))
  {
  }

  // What a name in the key space stands for: a place key, the name of a screening's
  // index set, or any other text (reservation records are filed under UUIDs).
  datatype Name = SeatName(screening: int64, place: Place) | SetName(screening: int64) | OtherName(text: string)

  function Render(name: Name): string {
    match name
    case SeatName(screening, place) => PlaceKey(screening, place)
    case SetName(screening) => PrintInt(screening)
    case OtherName(text) => text
  }

  // Only canonical spellings are place keys: parsing alone also accepts "+1_02_3".
  function ReadName(s: string): Name {
    var key := ParseKey(s);
    var number := ParseInt(s, LIMIT64);
    if key.ok && s == PlaceKey(key.screening, Place(key.row, key.seat)) then
      SeatName(key.screening, Place(key.row, key.seat))
    else if number.Parsed? && s == PrintInt(number.value) then SetName(number.value)
    else OtherName(s)
  }

  // uuid.NewString: 32 lower-case hexadecimal digits with dashes at 8, 13, 18, 23.
  predicate IsUuid(s: string) {
    |s| == 36 &&
    forall i :: 0 <= i < 36 ==>
      if i == 8 || i == 13 || i == 18 || i == 23 then s[i] == '-'
      else if i == 14 then s[i] == '4'
      else IsDigit(s[i]) || 'a' <= s[i] <= 'f'
  }

  // Every text of that shape is one.
  lemma UuidShape(s: string)
    requires |s| == 36 && s[8] == s[13] == s[18] == s[23] == '-' && s[14] == '4'
    requires forall i :: 0 <= i < 36 && i !in {8, 13, 18, 23} ==> s[i] in "0123456789abcdef"
    ensures IsUuid(s)
  {
  }

  lemma PlaceKeyIsNotNumber(screening: int64, place: Place, n: int)
    ensures PlaceKey(screening, place) != PrintInt(n)
  {
    PrintIntChars(n);
    var key := PlaceKey(screening, place);
    assert key[|PrintInt(screening)|] == '_';
    assert '_' in key && '_' !in PrintInt(n);
  }

  // Every text in the key space is the spelling of exactly one name.
  lemma RenderReadName(s: string)
    ensures Render(ReadName(s)) == s
  {
  }

  // Printing is injective: each place key and each set name reads back as itself,
  // negative screenings, rows and seats included.
  lemma ReadPlaceKey(screening: int64, place: Place)
    ensures ReadName(PlaceKey(screening, place)) == SeatName(screening, place)
  {
    ParsePlaceKey(screening, place);
  }

  lemma ReadSetName(screening: int64)
    ensures ReadName(PrintInt(screening)) == SetName(screening)
  {
    ParsePrintInt(screening, LIMIT64);
    var s := PrintInt(screening);
    if ParseKey(s).ok {
      PlaceKeyIsNotNumber(ParseKey(s).screening, Place(ParseKey(s).row, ParseKey(s).seat), screening);
    }
  }

  // A reservation id is never mistaken for a place key or a set name.
  lemma ReadUuid(s: string)
    requires IsUuid(s)
    ensures ReadName(s) == OtherName(s)
  {
    assert '_' !in s;
    var key := ParseKey(s);
    var spelled := PlaceKey(key.screening, Place(key.row, key.seat));
    assert spelled[|PrintInt(key.screening)|] == '_';
    assert s[8] == '-';
    var number := ParseInt(s, LIMIT64);
    if number.Parsed? {
      PrintIntChars(number.value);
    }
  }
}
