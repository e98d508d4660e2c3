/** The textual form of integer lists: the flag parser and the serializer.  Text is ASCII. */
module IntegerListText {
  import opened Wrappers
  import opened IntegerLists

  // ---------------------------------------------------------------------------------------------
  // Decimal numerals

  predicate IsDigit(c: char) {
    '0' <= c <= '9'
  }

  predicate AllDigits(s: string) {
    forall i :: 0 <= i < |s| ==> IsDigit(s[i])
  }

  function Digits(n: nat): (s: string)
    ensures s != "" && AllDigits(s)
  {
    var last := [('0' as int + n % 10) as char];
    if n < 10 then last else Digits(n / 10) + last
  }

  function Natural(s: string): nat
    requires AllDigits(s)
  {
    if s == "" then 0
    else 10 * Natural(s[..|s| - 1]) + (s[|s| - 1] as int - '0' as int)
  }

  /** Python's str of an integer. */
  function Str(v: int): string {
    if v < 0 then "-" + Digits(-v) else Digits(v)
  }

  /** The pattern -?\d+ */
  predicate IsSigned(s: string) {
    s != "" && (AllDigits(s) || (s[0] == '-' && s[1..] != "" && AllDigits(s[1..])))
  }

  function Integer(s: string): int
    requires IsSigned(s)
  {
    if AllDigits(s) then Natural(s) else
      var n: int := Natural(s[1..]);
      -n
  }

  lemma {:induction false} NaturalOfDigits(n: nat)
    ensures Natural(Digits(n)) == n
  {
    var last := [('0' as int + n % 10) as char];
    if n < 10 {
      assert last[..0] == "";
    } else {
      NaturalOfDigits(n / 10);
      assert (Digits(n / 10) + last)[..|Digits(n / 10)|] == Digits(n / 10);
    }
  }

  /** Numerals have no leading zeros. */
  lemma {:induction false} DigitsAreCanonical(n: nat)
    ensures n == 0 ==> Digits(n) == "0"
    ensures n > 0 ==> Digits(n)[0] != '0'
  {
    if n >= 10 { DigitsAreCanonical(n / 10); }
  }

  lemma IntegerOfStr(v: int)
    ensures IsSigned(Str(v)) && Integer(Str(v)) == v
    ensures v >= 0 ==> AllDigits(Str(v))
  {
    if v < 0 {
      NaturalOfDigits(-v);
      assert Str(v)[0] == '-' && Str(v)[1..] == Digits(-v);
    } else {
      NaturalOfDigits(v);
    }
  }

  // ---------------------------------------------------------------------------------------------
  // Splitting and joining

  function Split(s: string, sep: char): (parts: seq<string>)
    ensures parts != []
  {
    if s == "" then [""]
    else
      var rest := Split(s[1..], sep);
      if s[0] == sep then [""] + rest else [[s[0]] + rest[0]] + rest[1..]
  }

  function Join(parts: seq<string>, sep: char): string
    requires parts != []
  {
    if |parts| == 1 then parts[0] else parts[0] + [sep] + Join(parts[1..], sep)
  }

  lemma {:induction false} SplitFirst(a: string, sep: char, rest: string)
    requires sep !in a
    ensures Split(a, sep) == [a]
    ensures Split(a + [sep] + rest, sep) == [a] + Split(rest, sep)
  {
    if a == "" {
      assert a + [sep] + rest == [sep] + rest;
      assert ([sep] + rest)[1..] == rest;
    } else {
      SplitFirst(a[1..], sep, rest);
      assert (a + [sep] + rest)[1..] == a[1..] + [sep] + rest;
      assert [a[0]] + a[1..] == a;
    }
  }

  /** Splitting undoes joining. */
  lemma {:induction false} SplitOfJoin(parts: seq<string>, sep: char)
    requires parts != [] && forall i :: 0 <= i < |parts| ==> sep !in parts[i]
    ensures Split(Join(parts, sep), sep) == parts
  {
    if |parts| == 1 {
      SplitFirst(parts[0], sep, "");
    } else {
      SplitOfJoin(parts[1..], sep);
      SplitFirst(parts[0], sep, Join(parts[1..], sep));
    }
  }

  /** Every character is the separator or stands in one of the parts. */
  lemma {:induction false} CharsOfSplit(s: string, sep: char, i: nat)
    requires i < |s| && s[i] != sep
    ensures exists p :: p in Split(s, sep) && s[i] in p
  {
    var rest := Split(s[1..], sep);
    var parts := Split(s, sep);
    if i == 0 {
      assert parts[0] in parts && s[0] in parts[0];
    } else {
      CharsOfSplit(s[1..], sep, i - 1);
      var p :| p in rest && s[1..][i - 1] in p;
      var k :| 0 <= k < |rest| && rest[k] == p;
      if s[0] == sep {
        assert parts[k + 1] == p;
      } else if k == 0 {
        assert parts[0] == [s[0]] + p && parts[0] in parts;
      } else {
        assert parts[k] == p;
      }
    }
  }

  // ---------------------------------------------------------------------------------------------
  // The parser

  datatype ParseError = InvalidList | NotIncreasing | ZeroStep

  /** The end-of-pattern mark also matches before a final newline. */
  function ChopNewline(s: string): string {
    if s != "" && s[|s| - 1] == '\n' then s[..|s| - 1] else s
  }

  /** The fields of one to three unsigned numerals separated by dashes. */
  function MatchDashes(s: string): Option<seq<string>> {
    var fields := Split(ChopNewline(s), '-');
    if |fields| <= 3 && (forall f :: f in fields ==> f != "" && AllDigits(f)) then Some(fields) else None
  }

  /** The fields of one to three signed numerals separated by colons. */
  function MatchColons(s: string): Option<seq<string>> {
    var fields := Split(ChopNewline(s), ':');
    if |fields| <= 3 && (forall f :: f in fields ==> IsSigned(f)) then Some(fields) else None
  }

  function MatchGroup(s: string): (fields: Option<seq<string>>)
    ensures fields.Some? ==> 1 <= |fields.value| <= 3 && forall f :: f in fields.value ==> IsSigned(f)
  {
    if MatchDashes(s).Some? then MatchDashes(s) else MatchColons(s)
  }

  lemma {:induction false} JoinOfSplit(s: string, sep: char)
    ensures Join(Split(s, sep), sep) == s && forall f :: f in Split(s, sep) ==> sep !in f
  {
    if s != "" {
      var rest := Split(s[1..], sep);
      JoinOfSplit(s[1..], sep);
      if s[0] == sep {
        assert ([""] + rest)[1..] == rest;
      } else {
        var first := [s[0]] + rest[0];
        assert ([first] + rest[1..])[1..] == rest[1..];
        assert rest == [rest[0]] + rest[1..];
      }
      assert s == [s[0]] + s[1..];
    }
  }

  ghost predicate IsJoined(s: string, sep: char, fields: seq<string>) {
    1 <= |fields| <= 3 && s == Join(fields, sep)
  }

  /** A group is one to three unsigned numerals joined by dashes, or one to three signed ones joined by colons; a
      newline may follow. */
  lemma MatchesIff(s: string)
    ensures MatchGroup(s).Some? <==>
      || (exists fields :: IsJoined(ChopNewline(s), '-', fields) && forall f :: f in fields ==> f != "" && AllDigits(f))
      || (exists fields :: IsJoined(ChopNewline(s), ':', fields) && forall f :: f in fields ==> IsSigned(f))
  {
    var chopped := ChopNewline(s);
    JoinOfSplit(chopped, '-');
    JoinOfSplit(chopped, ':');
    if fields: seq<string> :|
      IsJoined(chopped, '-', fields) && forall f :: f in fields ==> f != "" && AllDigits(f)
    {
      FieldsAreSplit(fields, '-');
    }
    if fields: seq<string> :| IsJoined(chopped, ':', fields) && forall f :: f in fields ==> IsSigned(f) {
      FieldsAreSplit(fields, ':');
    }
    if MatchDashes(s).Some? {
      assert IsJoined(chopped, '-', Split(chopped, '-'));
    }
    if MatchColons(s).Some? {
      assert IsJoined(chopped, ':', Split(chopped, ':'));
    }
  }

  lemma FieldsAreSplit(fields: seq<string>, sep: char)
    requires fields != [] && (sep == ':' || sep == '-')
    requires forall f :: f in fields ==> if sep == '-' then AllDigits(f) else IsSigned(f)
    ensures Split(Join(fields, sep), sep) == fields
  {
    forall i | 0 <= i < |fields| ensures sep !in fields[i] {
      var f := fields[i];
      assert f in fields;
      forall k | 0 <= k < |f| ensures f[k] != sep {
        if k > 0 && f[0] == '-' { assert f[k] == f[1..][k - 1]; }
      }
    }
    SplitOfJoin(fields, sep);
  }

  function ParseGroup(s: string): Option<Group> {
    var fields := MatchGroup(s);
    if fields.None? then None
    else
      var f := fields.value;
      assert f[0] in f;
      if |f| == 1 then Some(Single(Integer(f[0])))
      else
        assert f[1] in f;
        var low, high := Integer(f[0]), Integer(f[1]);
        var step := if |f| == 3 then assert f[2] in f; Integer(f[2]) else 1;
        Some(SteppedRange(low, high, if step > 0 && low > high then -step else step))
  }

  /** Whether the list stops increasing when this group is appended. */
  predicate StopsIncreasing(result: seq<Group>, group: Group) {
    || (!group.Single? && group.high <= group.low)
    || (result != [] && group.First() <= result[|result| - 1].Last())
  }

  function ParseFrom(strict: bool, pieces: seq<string>, result: seq<Group>): Result<seq<Group>, ParseError> {
    if pieces == [] then (if AllValid(result) then Ok(result) else Err(ZeroStep))
    else
      var group := ParseGroup(pieces[0]);
      if group.None? then Err(InvalidList)
      else if strict && StopsIncreasing(result, group.value) then Err(NotIncreasing)
      else ParseFrom(strict, pieces[1..], result + [group.value])
  }

  /** strict is the EXCEPTION mode; the other modes differ from each other in what they log. */
  function ParseText(strict: bool, text: string): Result<seq<Group>, ParseError> {
    ParseFrom(strict, Split(text, ','), [])
  }

  method Parse(strict: bool, text: string) returns (r: Result<IntegerList, ParseError>)
    ensures r.Ok? <==> ParseText(strict, text).Ok?
    ensures r.Ok? ==> r.value.Valid() && r.value.groups == ParseText(strict, text).value
    ensures r.Err? ==> ParseText(strict, text) == Err(r.error)
  {
    var groups := Split(text, ',');
    var result := [];
    for i := 0 to |groups|
      invariant ParseText(strict, text) == ParseFrom(strict, groups[i..], result)
    {
      assert groups[i..][0] == groups[i] && groups[i..][1..] == groups[i + 1..];
      var group := ParseGroup(groups[i]);
      if group.None? {
        return Err(InvalidList);
      }
      if strict && StopsIncreasing(result, group.value) {
        return Err(NotIncreasing);
      }
      result := result + [group.value];
    }
    assert groups[|groups|..] == [];
    var il := Make(result);
    return if il.None? then Err(ZeroStep) else Ok(il.value);
  }

  // ---------------------------------------------------------------------------------------------
  // The serializer

  function Bounds(g: Group): (r: seq<int>)
    ensures 1 <= |r| <= 3
  {
    match g
    case Single(v) => [v]
    case Range(low, high) => [low, high]
    case SteppedRange(low, high, step) => [low, high, step]
  }

  function Strs(vs: seq<int>): (r: seq<string>)
    ensures |r| == |vs| && forall i :: 0 <= i < |vs| ==> r[i] == Str(vs[i])
  {
    if vs == [] then [] else [Str(vs[0])] + Strs(vs[1..])
  }

  predicate HasNegative(vs: seq<int>) {
    exists v :: v in vs && v < 0
  }

  function SerializeGroup(g: Group): string {
    Join(Strs(Bounds(g)), if HasNegative(Bounds(g)) then ':' else '-')
  }

  function SerializeGroups(groups: seq<Group>): (r: seq<string>)
    ensures |r| == |groups| && forall i :: 0 <= i < |groups| ==> r[i] == SerializeGroup(groups[i])
  {
    if groups == [] then [] else [SerializeGroup(groups[0])] + SerializeGroups(groups[1..])
  }

  function Serialize(groups: seq<Group>): string {
    if groups == [] then "" else Join(SerializeGroups(groups), ',')
  }

  lemma JoinForms(a: string, b: string, c: string, sep: char)
    ensures Join([a], sep) == a && Join([a, b], sep) == a + [sep] + b
    ensures Join([a, b, c], sep) == a + [sep] + b + [sep] + c
  {
    assert [a, b][1..] == [b] && [a, b, c][1..] == [b, c] && [b, c][1..] == [c];
    assert Join([b, c], sep) == b + [sep] + c;
    assert a + [sep] + (b + [sep] + c) == a + [sep] + b + [sep] + c;
  }

  /** The printed forms: a range with a negative number in it has colons, any other has dashes. */
  lemma SerializedForms(g: Group)
    ensures SerializeGroup(g) == match g
      case Single(value) => Str(value)
      case Range(low, high) =>
        if low < 0 || high < 0 then Str(low) + ":" + Str(high) else Str(low) + "-" + Str(high)
      case SteppedRange(low, high, step) =>
        if low < 0 || high < 0 || step < 0 then Str(low) + ":" + Str(high) + ":" + Str(step)
        else Str(low) + "-" + Str(high) + "-" + Str(step)
  {
    match g
    case Single(value) =>
      JoinForms(Str(value), "", "", if value < 0 then ':' else '-');
      assert Strs([value]) == [Str(value)];
    case Range(low, high) =>
      NegativeOfThree(low, high, 0);
      JoinForms(Str(low), Str(high), "", if low < 0 || high < 0 then ':' else '-');
      assert Strs([low, high]) == [Str(low), Str(high)];
    case SteppedRange(low, high, step) =>
      NegativeOfThree(low, high, step);
      JoinForms(Str(low), Str(high), Str(step), if low < 0 || high < 0 || step < 0 then ':' else '-');
      assert Strs([low, high, step]) == [Str(low), Str(high), Str(step)];
  }

  lemma NegativeOfThree(a: int, b: int, c: int)
    ensures HasNegative([a, b]) <==> a < 0 || b < 0
    ensures HasNegative([a, b, c]) <==> a < 0 || b < 0 || c < 0
  {
    assert a in [a, b] && b in [a, b] && a in [a, b, c] && b in [a, b, c] && c in [a, b, c];
  }

  // ---------------------------------------------------------------------------------------------
  // Parsing undoes printing

  /** The group that the parser makes of a printed group: a triple whose step points from low to high. */
  function Normal(g: Group): Group {
    match g
    case Single(_) => g
    case Range(low, high) => SteppedRange(low, high, if low > high then -1 else 1)
    case SteppedRange(low, high, step) => SteppedRange(low, high, if step > 0 && low > high then -step else step)
  }

  function NormalAll(groups: seq<Group>): (r: seq<Group>)
    ensures |r| == |groups| && forall i :: 0 <= i < |groups| ==> r[i] == Normal(groups[i])
  {
    if groups == [] then [] else [Normal(groups[0])] + NormalAll(groups[1..])
  }

  lemma StrChars(v: int, c: char)
    requires c in Str(v)
    ensures IsDigit(c) || (c == '-' && v < 0)
  {
  }

  lemma {:induction false} JoinChars(parts: seq<string>, sep: char, c: char)
    requires parts != [] && c in Join(parts, sep)
    ensures c == sep || exists i :: 0 <= i < |parts| && c in parts[i]
  {
    if |parts| > 1 && c !in parts[0] && c != sep {
      JoinChars(parts[1..], sep, c);
      var i :| 0 <= i < |parts[1..]| && c in parts[1..][i];
      assert c in parts[i + 1];
    }
  }

  lemma {:induction false} JoinHasSeparator(parts: seq<string>, sep: char)
    requires |parts| > 1
    ensures Join(parts, sep)[|parts[0]|] == sep
  {
  }

  lemma SerializedChars(g: Group)
    ensures ',' !in SerializeGroup(g) && '\n' !in SerializeGroup(g)
  {
    var parts := Strs(Bounds(g));
    var sep := if HasNegative(Bounds(g)) then ':' else '-';
    forall c | c in SerializeGroup(g) ensures c != ',' && c != '\n' {
      JoinChars(parts, sep, c);
      if c != sep {
        var i :| 0 <= i < |parts| && c in parts[i];
        StrChars(Bounds(g)[i], c);
      }
    }
  }

  lemma {:induction false} FieldsOfSerialized(g: Group)
    ensures MatchGroup(SerializeGroup(g)) == Some(Strs(Bounds(g)))
  {
    var s := SerializeGroup(g);
    var vs := Bounds(g);
    var parts := Strs(vs);
    SerializedChars(g);
    assert ChopNewline(s) == s;
    forall i | 0 <= i < |vs| ensures IsSigned(parts[i]) && (vs[i] >= 0 ==> AllDigits(parts[i])) {
      IntegerOfStr(vs[i]);
    }
    if HasNegative(vs) {
      forall i | 0 <= i < |parts| ensures ':' !in parts[i] {
        if ':' in parts[i] { StrChars(vs[i], ':'); }
      }
      SplitOfJoin(parts, ':');
      DashesDoNotMatch(g);
    } else {
      forall i | 0 <= i < |parts| ensures '-' !in parts[i] {
        assert vs[i] in vs;
        if '-' in parts[i] { StrChars(vs[i], '-'); }
      }
      SplitOfJoin(parts, '-');
    }
  }

  lemma DashesDoNotMatch(g: Group)
    requires HasNegative(Bounds(g))
    ensures MatchDashes(SerializeGroup(g)).None?
  {
    var s := SerializeGroup(g);
    var parts := Strs(Bounds(g));
    SerializedChars(g);
    assert ChopNewline(s) == s;
    if |parts| == 1 {
      assert s[0] == '-';
      assert Split(s, '-')[0] == "";
      assert "" in Split(s, '-');
    } else {
      JoinHasSeparator(parts, ':');
      CharsOfSplit(s, '-', |parts[0]|);
      var p :| p in Split(s, '-') && ':' in p;
      assert !AllDigits(p);
    }
  }

  lemma GroupRoundTrip(g: Group)
    ensures ParseGroup(SerializeGroup(g)) == Some(Normal(g))
  {
    FieldsOfSerialized(g);
    forall i | 0 <= i < |Bounds(g)| ensures IsSigned(Str(Bounds(g)[i])) && Integer(Str(Bounds(g)[i])) == Bounds(g)[i] {
      IntegerOfStr(Bounds(g)[i]);
    }
  }

  lemma ParseFromStep(pieces: seq<string>, result: seq<Group>, g: Group)
    requires pieces != [] && ParseGroup(pieces[0]) == Some(g)
    ensures ParseFrom(false, pieces, result) == ParseFrom(false, pieces[1..], result + [g])
  {
  }

  lemma {:induction false} ParseFromSerialized(groups: seq<Group>, result: seq<Group>)
    ensures ParseFrom(false, SerializeGroups(groups), result) == ParseFrom(false, [], result + NormalAll(groups))
  {
    if groups == [] {
      assert result + NormalAll(groups) == result;
    } else {
      var g := Normal(groups[0]);
      GroupRoundTrip(groups[0]);
      ParseFromStep(SerializeGroups(groups), result, g);
      ParseFromSerialized(groups[1..], result + [g]);
      assert SerializeGroups(groups)[1..] == SerializeGroups(groups[1..]);
      assert result + [g] + NormalAll(groups[1..]) == result + NormalAll(groups);
    }
  }

  /** Parsing what was printed, for any groups at all. */
  lemma ParseOfSerialize(groups: seq<Group>)
    ensures ParseText(false, Serialize(groups)) ==
      if groups == [] then Err(InvalidList)
      else if AllValid(groups) then Ok(NormalAll(groups))
      else Err(ZeroStep)
  {
    if groups == [] {
      assert !IsSigned("");
      assert Split("", ',') == [""] && "" in Split("", '-') && "" in Split("", ':');
      assert ParseGroup("").None?;
    } else {
      forall i | 0 <= i < |groups| ensures ',' !in SerializeGroups(groups)[i] { SerializedChars(groups[i]); }
      SplitOfJoin(SerializeGroups(groups), ',');
      ParseFromSerialized(groups, []);
      assert [] + NormalAll(groups) == NormalAll(groups);
      ValidNormal(groups);
    }
  }

  lemma ValidNormal(groups: seq<Group>)
    ensures AllValid(groups) <==> AllValid(NormalAll(groups))
  {
    assert AllValid(groups) <==> forall i :: 0 <= i < |groups| ==> groups[i].Valid();
    var normal := NormalAll(groups);
    assert AllValid(normal) <==> forall i :: 0 <= i < |normal| ==> normal[i].Valid();
    forall i | 0 <= i < |groups| ensures normal[i].Valid() <==> groups[i].Valid() {
      assert normal[i] == Normal(groups[i]);
    }
  }

  /** The groups that the parser produces. */
  predicate IsParsed(g: Group) {
    IsTurned(g) && g.Valid()
  }

  predicate IsTurned(g: Group) {
    g.Single? || (g.SteppedRange? && !(g.step > 0 && g.low > g.high))
  }

  lemma {:induction false} ParserOutput(strict: bool, pieces: seq<string>, result: seq<Group>)
    requires ParseFrom(strict, pieces, result).Ok?
    requires forall i :: 0 <= i < |result| ==> IsTurned(result[i])
    ensures var groups := ParseFrom(strict, pieces, result).value;
      |groups| == |result| + |pieces| && forall i :: 0 <= i < |groups| ==> IsParsed(groups[i])
    decreases |pieces|
  {
    if pieces == [] {
      forall i | 0 <= i < |result| ensures IsParsed(result[i]) { assert result[i] in result; }
    } else {
      ParserOutput(strict, pieces[1..], result + [ParseGroup(pieces[0]).value]);
    }
  }

  /** Whatever text a list was parsed from, printing it and parsing it again gives the same groups. */
  lemma ParsePrintParse(strict: bool, text: string)
    requires ParseText(strict, text).Ok?
    ensures var groups := ParseText(strict, text).value; ParseText(false, Serialize(groups)) == Ok(groups)
  {
    ParserOutput(strict, Split(text, ','), []);
    var groups := ParseText(strict, text).value;
    ParseOfSerialize(groups);
    forall g | g in groups ensures g.Valid() && Normal(g) == g {}
    assert NormalAll(groups) == groups;
  }

  lemma NormalIsSameIff(groups: seq<Group>)
    requires AllValid(groups)
    ensures NormalAll(groups) == groups <==> forall i :: 0 <= i < |groups| ==> IsParsed(groups[i])
  {
    forall i | 0 <= i < |groups| ensures NormalAll(groups)[i] == groups[i] <==> IsParsed(groups[i]) {
      assert groups[i] in groups;
    }
  }

  /** The same groups come back exactly when the parser can produce them. */
  lemma SameGroupsIff(groups: seq<Group>)
    ensures ParseText(false, Serialize(groups)) == Ok(groups)
      <==> groups != [] && forall i :: 0 <= i < |groups| ==> IsParsed(groups[i])
  {
    ParseOfSerialize(groups);
    if AllValid(groups) {
      NormalIsSameIff(groups);
    } else {
      var g :| g in groups && !g.Valid();
      var i :| 0 <= i < |groups| && groups[i] == g;
      assert !IsParsed(groups[i]);
    }
  }

  /** A range that points away from its upper bound.  It is empty, and the parser turns it around. */
  predicate IsBackward(g: Group) {
    !g.Single? && g.Step() > 0 && g.low > g.high
  }

  lemma NormalElements(g: Group)
    requires g.Valid()
    ensures Normal(g).Valid()
    ensures IsBackward(g) ==> g.Elements() == [] && Normal(g).Elements() != []
    ensures !IsBackward(g) ==> Normal(g).Elements() == g.Elements()
  {
  }

  lemma {:induction false} NormalExpansion(groups: seq<Group>)
    requires AllValid(groups)
    ensures AllValid(NormalAll(groups)) && |Expand(groups)| <= |Expand(NormalAll(groups))|
    ensures Expand(NormalAll(groups)) == Expand(groups) <==> forall g :: g in groups ==> !IsBackward(g)
    ensures (exists g :: g in groups && IsBackward(g)) ==> |Expand(groups)| < |Expand(NormalAll(groups))|
  {
    ValidNormal(groups);
    if groups != [] {
      NormalExpansion(groups[1..]);
      NormalElements(groups[0]);
      assert NormalAll(groups)[1..] == NormalAll(groups[1..]);
      assert forall g :: g in groups <==> g == groups[0] || g in groups[1..];
    }
  }

  /** The same integers come back exactly when no range is backward. */
  lemma SameIntegersIff(groups: seq<Group>)
    requires groups != [] && AllValid(groups)
    ensures ParseText(false, Serialize(groups)).Ok?
    ensures AllValid(ParseText(false, Serialize(groups)).value)
    ensures Expand(ParseText(false, Serialize(groups)).value) == Expand(groups)
      <==> forall g :: g in groups ==> !IsBackward(g)
  {
    ParseOfSerialize(groups);
    NormalExpansion(groups);
  }

  /** The range from 5 down to 3 with step 1 is empty, but comes back as three integers. */
  lemma BackwardRangeComesBackTurned()
    ensures AllValid([Range(5, 3)]) && Expand([Range(5, 3)]) == []
    ensures var r := ParseText(false, Serialize([Range(5, 3)]));
      r.Ok? && AllValid(r.value) && Expand(r.value) == [5, 4, 3]
  {
    ParseOfSerialize([Range(5, 3)]);
    var turned := SteppedRange(5, 3, -1);
    assert NormalAll([Range(5, 3)]) == [turned];
    assert [turned][1..] == [] && [Range(5, 3)][1..] == [];
    assert RangeElements(4, 2, -1) == [4] + RangeElements(3, 2, -1);
    assert turned.Elements() == [5, 4, 3];
  }

  // ---------------------------------------------------------------------------------------------
  // EXCEPTION mode

  ghost predicate StrictlyIncreasing(xs: seq<int>) {
    forall i, j :: 0 <= i < j < |xs| ==> xs[i] < xs[j]
  }

  /** Every range runs upwards and every group begins above the end of the one before it. */
  predicate BoundsIncrease(groups: seq<Group>) {
    && (forall i :: 0 <= i < |groups| ==> groups[i].Single? || groups[i].low < groups[i].high)
    && (forall i :: 0 < i < |groups| ==> groups[i - 1].Last() < groups[i].First())
  }

  lemma {:induction false} StrictFrom(pieces: seq<string>, result: seq<Group>)
    requires BoundsIncrease(result)
    ensures ParseFrom(true, pieces, result).Ok?
      <==> ParseFrom(false, pieces, result).Ok? && BoundsIncrease(ParseFrom(false, pieces, result).value)
    ensures ParseFrom(true, pieces, result).Ok? ==> ParseFrom(true, pieces, result) == ParseFrom(false, pieces, result)
    decreases |pieces|
  {
    if pieces != [] && ParseGroup(pieces[0]).Some? {
      var extended := result + [ParseGroup(pieces[0]).value];
      if StopsIncreasing(result, ParseGroup(pieces[0]).value) {
        assert extended[|result|] == ParseGroup(pieces[0]).value;
        assert result != [] ==> extended[|result| - 1] == result[|result| - 1];
        if ParseFrom(false, pieces[1..], extended).Ok? { NeverIncreasesAgain(pieces[1..], extended); }
      } else {
        assert BoundsIncrease(extended);
        StrictFrom(pieces[1..], extended);
      }
    }
  }

  lemma {:induction false} NeverIncreasesAgain(pieces: seq<string>, result: seq<Group>)
    requires !BoundsIncrease(result) && ParseFrom(false, pieces, result).Ok?
    ensures !BoundsIncrease(ParseFrom(false, pieces, result).value)
    decreases |pieces|
  {
    if pieces != [] {
      var extended := result + [ParseGroup(pieces[0]).value];
      if i :| 0 <= i < |result| && !(result[i].Single? || result[i].low < result[i].high) {
        assert extended[i] == result[i];
      } else {
        var i :| 0 < i < |result| && !(result[i - 1].Last() < result[i].First());
        assert extended[i - 1] == result[i - 1] && extended[i] == result[i];
      }
      NeverIncreasesAgain(pieces[1..], extended);
    }
  }

  lemma ConcatIncreases(a: seq<int>, b: seq<int>)
    requires StrictlyIncreasing(a) && StrictlyIncreasing(b) && forall x, y :: x in a && y in b ==> x < y
    ensures StrictlyIncreasing(a + b)
  {
    forall i, j | 0 <= i < j < |a + b| ensures (a + b)[i] < (a + b)[j] {
      if i < |a| <= j { assert a[i] in a && b[j - |a|] in b; }
    }
  }

  /** All elements of a group lie between its bounds, in increasing order. */
  lemma GroupIncreases(g: Group)
    requires g.Valid() && (g.Single? || g.low < g.high)
    ensures StrictlyIncreasing(g.Elements()) && forall x :: x in g.Elements() ==> g.First() <= x <= g.Last()
  {
    if !g.Single? { RangeIncreases(g.low, g.Stop(), g.Step()); }
  }

  lemma {:induction false} RangeIncreases(start: int, stop: int, step: int)
    requires step != 0 && (step < 0 ==> start <= stop)
    ensures StrictlyIncreasing(RangeElements(start, stop, step))
    ensures forall x :: x in RangeElements(start, stop, step) ==> start <= x < stop
    decreases if step > 0 then stop - start else start - stop
  {
    if step > 0 && start < stop {
      RangeIncreases(start + step, stop, step);
      ConcatIncreases([start], RangeElements(start + step, stop, step));
    }
  }

  lemma {:induction false} ExpansionIncreases(groups: seq<Group>)
    requires AllValid(groups) && BoundsIncrease(groups)
    ensures StrictlyIncreasing(Expand(groups))
    ensures groups != [] ==> forall x :: x in Expand(groups) ==> groups[0].First() <= x
  {
    if groups != [] {
      var rest := groups[1..];
      assert forall i :: 0 <= i < |rest| ==> rest[i] == groups[i + 1];
      ExpansionIncreases(rest);
      GroupIncreases(groups[0]);
      if rest != [] { assert groups[0].Last() < rest[0].First(); }
      ConcatIncreases(groups[0].Elements(), Expand(rest));
    }
  }

  /** EXCEPTION mode accepts exactly the lists whose bounds increase, and each of them expands to a strictly
      increasing sequence of integers. */
  lemma StrictMode(text: string)
    ensures ParseText(true, text).Ok? <==> ParseText(false, text).Ok? && BoundsIncrease(ParseText(false, text).value)
    ensures ParseText(true, text).Ok? ==> ParseText(true, text) == ParseText(false, text)
    ensures ParseText(true, text).Ok? ==>
      AllValid(ParseText(true, text).value) && StrictlyIncreasing(Expand(ParseText(true, text).value))
  {
    StrictFrom(Split(text, ','), []);
    if ParseText(true, text).Ok? {
      ParserOutput(true, Split(text, ','), []);
      var groups := ParseText(true, text).value;
      forall g | g in groups ensures g.Valid() {}
      ExpansionIncreases(groups);
    }
  }
}
