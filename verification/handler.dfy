/**
  internal/handler/handler.go: what the service is given. The places of a request
  become distinct, and a list of screening ids is accepted exactly when it is one.
 */
module Handler {
  import opened Strings
  import opened PlaceKeys
  import opened SliceUtils
  import opened Results

  // A protobuf message may be nil; the keys of a Go map are distinct.
  method ConvertGrpcPlacesToModels(pl: seq<Option<Place>>) returns (places: seq<Place>)
    ensures Distinct(places) && |places| <= |pl|
    ensures forall p :: p in places <==> Some(p) in pl
  {
    var res: set<Place> := {};
    for i := 0 to |pl|
      invariant |res| <= i
      invariant forall p :: p in res <==> Some(p) in pl[..i]
    {
      if pl[i].Some? {
        res := res + {pl[i].value};
      }
    }
    assert pl[..|pl|] == pl;
    places := Keys(res);
    assert forall p :: p in places <==> p in Elements(places);
  }

  // The places of a reservation request: one to five of them, then made distinct.
  method RequestedPlaces(pl: seq<Option<Place>>) returns (r: Result<seq<Place>>)
    ensures r.Ok? <==> 1 <= |pl| <= 5
    ensures r.Ok? ==> Distinct(r.value) && |r.value| <= 5 && forall p :: p in r.value <==> Some(p) in pl
    ensures r.Err? ==> r.code == InvalidArgument
  {
    if |pl| > 5 || |pl| < 1 {
      return Err(InvalidArgument);
    }
    var places := ConvertGrpcPlacesToModels(pl);
    return Ok(places);
  }

  // ---------- id lists ----------

  // The pattern ^\d+(,\d+)*$ as an automaton of two states: a digit must come next, or
  // the number so far may also end.
  predicate DigitNext(s: string) {
    s != "" && IsDigit(s[0]) && NumberGoesOn(s[1..])
  }

  predicate NumberGoesOn(s: string) {
    s == "" || (if s[0] == ',' then DigitNext(s[1..]) else IsDigit(s[0]) && NumberGoesOn(s[1..]))
  }

  predicate CheckIds(val: string) {
    DigitNext(val)
  }

  predicate IsNumber(part: string) {
    part != "" && AllDigits(part)
  }

  predicate AllNumbers(parts: seq<string>) {
    forall i :: 0 <= i < |parts| ==> IsNumber(parts[i])
  }

  lemma {:induction false} AutomatonParts(s: string)
    ensures DigitNext(s) <==> AllNumbers(Split(s, ','))
    ensures NumberGoesOn(s) <==> AllDigits(Split(s, ',')[0]) && AllNumbers(Split(s, ',')[1..])
  {
    if s == "" {
      assert Split(s, ',') == [""];
    } else {
      AutomatonParts(s[1..]);
      var parts, rest := Split(s, ','), Split(s[1..], ',');
      if s[0] == ',' {
        assert parts == [""] + rest && parts[1..] == rest;
        assert !IsNumber(parts[0]);
      } else {
        assert parts[0] == [s[0]] + rest[0] && parts[1..] == rest[1..];
        assert AllDigits(parts[0]) <==> IsDigit(s[0]) && AllDigits(rest[0]) by {
          assert parts[0][0] == s[0] && parts[0][1..] == rest[0];
          assert forall i :: 0 <= i < |rest[0]| ==> parts[0][i + 1] == rest[0][i];
        }
        assert AllNumbers(parts) <==> IsNumber(parts[0]) && AllNumbers(parts[1..]) by {
          assert forall i :: 1 <= i < |parts| ==> parts[i] == parts[1..][i - 1];
        }
      }
    }
  }

  lemma {:induction false} AutomatonChars(s: string)
    ensures NumberGoesOn(s) <==>
            && (forall i :: 0 <= i < |s| ==> '0' <= s[i] <= '9' || s[i] == ',')
            && (s != "" ==> s[|s| - 1] != ',')
            && (forall i :: 0 < i < |s| && s[i] == ',' ==> s[i - 1] != ',')
    ensures DigitNext(s) <==> s != "" && s[0] != ',' && NumberGoesOn(s)
  {
    if s != "" {
      AutomatonChars(s[1..]);
      var t := s[1..];
      assert forall i :: 0 < i < |s| ==> s[i] == t[i - 1];
      assert forall i :: 0 <= i < |t| ==> t[i] == s[i + 1];
    }
  }

  // Accepted are exactly the non-empty texts of digits and commas in which no comma comes
  // first, last or after another.
  lemma CheckIdsChars(val: string)
    ensures CheckIds(val) <==>
            && val != "" && val[0] != ',' && val[|val| - 1] != ','
            && (forall i :: 0 <= i < |val| ==> '0' <= val[i] <= '9' || val[i] == ',')
            && (forall i :: 0 < i < |val| && val[i] == ',' ==> val[i - 1] != ',')
  {
    AutomatonChars(val);
  }

  // Accepted are exactly the comma-joins of non-empty digit strings.
  lemma CheckIdsExact(val: string)
    ensures CheckIds(val) <==>
            exists parts: seq<string> :: parts != [] && AllNumbers(parts) && val == Join(parts, ',')
    ensures CheckIds(val) ==> AllNumbers(Split(val, ',')) && Join(Split(val, ','), ',') == val
  {
    AutomatonParts(val);
    JoinSplit(val, ',');
    forall parts: seq<string> | parts != [] && AllNumbers(parts) && val == Join(parts, ',')
      ensures CheckIds(val)
    {
      assert forall i :: 0 <= i < |parts| ==> ',' !in parts[i] by {
        assert !IsDigit(',');
      }
      SplitJoin(parts, ',');
    }
  }

  // strconv.Atoi with its error dropped: zero for nonsense, the nearest int64 otherwise.
  function Atoi(s: string): int64 {
    match ParseInt(s, LIMIT64)
    case Parsed(value) => value
    case BadSyntax => 0
    case OutOfRange(clamped) => clamped
  }

  method ConvertStringToInt64Slice(str: seq<string>) returns (res: seq<int64>)
    ensures |res| == |str|
    ensures forall i :: 0 <= i < |str| ==>
              match ParseInt(str[i], 0x8000_0000_0000_0000)
              case Parsed(value) => res[i] == value
              case BadSyntax => res[i] == 0
              case OutOfRange(clamped) => res[i] == clamped
    ensures forall i :: 0 <= i < |str| && str[i] != "" && AllDigits(str[i]) ==>
              res[i] == if DigitsValue(str[i]) < 0x8000_0000_0000_0000 then DigitsValue(str[i])
                        else 0x7fff_ffff_ffff_ffff
  {
    res := [];
    for i := 0 to |str|
      invariant |res| == i && forall k :: 0 <= k < i ==> res[k] == Atoi(str[k])
    {
      res := res + [Atoi(str[i])];
    }
    forall i | 0 <= i < |str| && str[i] != "" && AllDigits(str[i])
      ensures res[i] == if DigitsValue(str[i]) < 0x8000_0000_0000_0000 then DigitsValue(str[i])
                        else 0x7fff_ffff_ffff_ffff
    {
      assert IsDigit(str[i][0]);
    }
  }
}
