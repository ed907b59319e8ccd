/** The point-in-time audit of one evidence record: which market inputs may support it, and
    the printed provenance that a reader parses back. */
module PointInTime {
  import opened Text
  import opened EvidenceAnchor

  const MARKET := "market"
  const VENUE := "venue_metadata"

  datatype Input = Input(name: string, kind: string, event: int, epochInvariant: bool)

  predicate Exempt(i: Input) {
    i.kind == VENUE && i.epochInvariant
  }

  predicate PitValid(i: Input, evaluation: int) {
    Exempt(i) || i.event <= evaluation
  }

  // ----- printing and parsing instants -----

  datatype Civil = Civil(year: int, month: int, day: int, hour: int, minute: int, second: int)

  /** The calendar: `civil` splits a whole second, `instant` is `None` for dates that do not exist. */
  datatype Calendar = Calendar(civil: int -> Civil, instant: Civil -> Option<int>)

  const FIRST_SECOND := -30610224000
  const LAST_SECOND := 253402300799

  /** Seconds of the years 1000 to 9999, whose parts print in fixed width. */
  predicate Printable(second: int) {
    FIRST_SECOND <= second <= LAST_SECOND
  }

  predicate FitsWidth(c: Civil) {
    0 <= c.year < 10000 && 0 <= c.month < 100 && 0 <= c.day < 100 && 0 <= c.hour < 100 && 0 <= c.minute < 100
    && 0 <= c.second < 100
  }

  ghost predicate IsCalendar(cal: Calendar) {
    forall s | Printable(s) :: FitsWidth(cal.civil(s)) && cal.instant(cal.civil(s)) == Some(s)
  }

  const DIGITS := "0123456789"

  function Digit(n: int): char
    requires 0 <= n < 10
  {
    DIGITS[n]
  }

  function Two(n: int): (s: string)
    requires 0 <= n < 100
    ensures |s| == 2
  {
    [Digit(n / 10), Digit(n % 10)]
  }

  function Value(c: char): (v: Option<int>)
    ensures v.Some? <==> c in DIGITS
    ensures v.Some? ==> 0 <= v.value < 10 && DIGITS[v.value] == c
  {
    if '0' <= c <= '9' then Some(c as int - '0' as int) else None
  }

  function ReadTwo(a: char, b: char): Option<int> {
    if Value(a).Some? && Value(b).Some? then Some(10 * Value(a).value + Value(b).value) else None
  }

  lemma ValueOfDigit(n: int)
    requires 0 <= n < 10
    ensures Value(Digit(n)) == Some(n) && Digit(n) != ':'
  {
  }

  lemma ReadTwoOfTwo(n: int)
    requires 0 <= n < 100
    ensures ReadTwo(Two(n)[0], Two(n)[1]) == Some(n)
    ensures Two(n)[0] != ':' && Two(n)[1] != ':'
  {
    hide Value, Digit;
    ValueOfDigit(n / 10);
    ValueOfDigit(n % 10);
  }

  function FloorSecond(event: int): int {
    event / SECOND
  }

  /** Fixed width, without colons: YYYYMMDDTHHMMSSZ. Fractions of a second are dropped. */
  function Compact(c: Civil): string
    requires FitsWidth(c)
  {
    var ce, ye, mo, da := Two(c.year / 100), Two(c.year % 100), Two(c.month), Two(c.day);
    var ho, mi, se := Two(c.hour), Two(c.minute), Two(c.second);
    [ce[0], ce[1], ye[0], ye[1], mo[0], mo[1], da[0], da[1], 'T', ho[0], ho[1], mi[0], mi[1], se[0], se[1], 'Z']
  }

  /** Seven two-digit numbers in the places of a compact instant. */
  function ReadPairs(s: string): seq<Option<int>>
    requires |s| == 16
  {
    [ReadTwo(s[0], s[1]), ReadTwo(s[2], s[3]), ReadTwo(s[4], s[5]), ReadTwo(s[6], s[7]),
     ReadTwo(s[9], s[10]), ReadTwo(s[11], s[12]), ReadTwo(s[13], s[14])]
  }

  function ReadCivil(s: string): Option<Civil> {
    if |s| != 16 || s[8] != 'T' || s[15] != 'Z' then None
    else
      var p := ReadPairs(s);
      if p[0].Some? && p[1].Some? && p[2].Some? && p[3].Some? && p[4].Some? && p[5].Some? && p[6].Some?
      then Some(Civil(100 * p[0].value + p[1].value, p[2].value, p[3].value, p[4].value, p[5].value, p[6].value))
      else None
  }

  lemma ReadPairsOfCompact(c: Civil)
    requires FitsWidth(c)
    ensures |Compact(c)| == 16 && Compact(c)[8] == 'T' && Compact(c)[15] == 'Z'
    ensures ReadPairs(Compact(c)) == [Some(c.year / 100), Some(c.year % 100), Some(c.month), Some(c.day),
                                      Some(c.hour), Some(c.minute), Some(c.second)]
  {
    hide ReadTwo, Two;
    ReadTwoOfTwo(c.year / 100);
    ReadTwoOfTwo(c.year % 100);
    ReadTwoOfTwo(c.month);
    ReadTwoOfTwo(c.day);
    ReadTwoOfTwo(c.hour);
    ReadTwoOfTwo(c.minute);
    ReadTwoOfTwo(c.second);
  }

  lemma ReadCivilOfCompact(c: Civil)
    requires FitsWidth(c)
    ensures ReadCivil(Compact(c)) == Some(c)
  {
    hide Compact, ReadPairs;
    ReadPairsOfCompact(c);
  }

  lemma CompactHasNoColon(c: Civil)
    requires FitsWidth(c)
    ensures ':' !in Compact(c)
  {
    hide ReadTwo, Two;
    ReadTwoOfTwo(c.year / 100);
    ReadTwoOfTwo(c.year % 100);
    ReadTwoOfTwo(c.month);
    ReadTwoOfTwo(c.day);
    ReadTwoOfTwo(c.hour);
    ReadTwoOfTwo(c.minute);
    ReadTwoOfTwo(c.second);
  }

  /** Reading an instant: `None` when the code raises. */
  function ReadInstant(s: string, cal: Calendar): Option<int> {
    match ReadCivil(s)
    case None => None
    case Some(c) => match cal.instant(c) case None => None case Some(second) => Some(second * SECOND)
  }

  // ----- printing and parsing the audit -----

  const PREFIX := "pit:kraken_public_ohlc:"

  function Bool(b: bool): string {
    if b then "True" else "False"
  }

  function Compacted(event: int, cal: Calendar): string
    requires IsCalendar(cal) && Printable(FloorSecond(event))
  {
    Compact(cal.civil(FloorSecond(event)))
  }

  function Split(s: string): (parts: seq<string>)
    ensures parts != []
  {
    if s == "" then [""]
    else if s[0] == ':' then [""] + Split(s[1..])
    else var rest := Split(s[1..]); [[s[0]] + rest[0]] + rest[1..]
  }

  /** Key and value around the first equals sign of a token. */
  function KeyValue(token: string): Option<(string, string)> {
    if token == "" then None
    else if token[0] == '=' then Some(("", token[1..]))
    else match KeyValue(token[1..]) case None => None case Some(p) => Some(([token[0]] + p.0, p.1))
  }

  function Put(fields: map<string, string>, token: string): map<string, string> {
    match KeyValue(token) case None => fields case Some(p) => fields[p.0 := p.1]
  }

  /** Later tokens replace earlier ones. */
  function Fields(tokens: seq<string>): map<string, string> {
    if tokens == [] then map[] else Put(Fields(tokens[..|tokens| - 1]), tokens[|tokens| - 1])
  }

  datatype Parsed = NotAudit | Unreadable | Read(i: Input)

  function Get(fields: map<string, string>, key: string, default: string): string {
    if key in fields then fields[key] else default
  }

  function Tokens(r: string): seq<string> {
    if |Split(r)| <= 2 then [] else Split(r)[2..]
  }

  function FromFields(fields: map<string, string>, cal: Calendar): Parsed {
    if "event" !in fields then Parsed.Unreadable
    else match ReadInstant(fields["event"], cal)
      case None => Parsed.Unreadable
      case Some(event) =>
        Read(Input(Get(fields, "input", "UNKNOWN"), Get(fields, "kind", MARKET), event,
                   Get(fields, "epoch_invariant", "False") == "True"))
  }

  function Parse(r: string, cal: Calendar): Parsed {
    if !(PREFIX <= r) then NotAudit else FromFields(Fields(Tokens(r)), cal)
  }

  lemma {:induction false} SplitKeepsOutEquals(s: string)
    requires '=' !in s
    ensures forall t | t in Split(s) :: '=' !in t
  {
    if s != "" {
      SplitKeepsOutEquals(s[1..]);
    }
  }

  lemma {:induction false} NoEqualsNoValue(token: string)
    requires '=' !in token
    ensures KeyValue(token).None?
  {
    if token != "" {
      NoEqualsNoValue(token[1..]);
    }
  }

  lemma {:induction false} NoEqualsNoFields(tokens: seq<string>)
    requires forall t | t in tokens :: '=' !in t
    ensures Fields(tokens) == map[]
  {
    if tokens != [] {
      NoEqualsNoFields(tokens[..|tokens| - 1]);
      NoEqualsNoValue(tokens[|tokens| - 1]);
    }
  }

  /** Exactly the references with the audit's prefix are read, and one that holds no field at all
      is an error, not an entry that is left out. */
  lemma AuditsAreNeverDropped(r: string, cal: Calendar)
    ensures Parse(r, cal).NotAudit? <==> !("pit:kraken_public_ohlc:" <= r)
    ensures PREFIX <= r && '=' !in r ==> Parse(r, cal).Unreadable?
  {
    if '=' !in r {
      SplitKeepsOutEquals(r);
      NoEqualsNoFields(Tokens(r));
    }
    hide Split, Fields, ReadInstant;
  }

  function Colon(a: string, b: string): string {
    a + ":" + b
  }

  /** The printed provenance reference of one input. */
  function Ref(i: Input, evaluation: int, cal: Calendar): string
    requires IsCalendar(cal) && Printable(FloorSecond(i.event)) && Printable(FloorSecond(evaluation))
  {
    Colon("pit", Colon("kraken_public_ohlc",
      Colon("input=" + i.name, Colon("kind=" + i.kind,
        Colon("event=" + Compacted(i.event, cal), Colon("epoch_invariant=" + Bool(i.epochInvariant),
          Colon("evaluation_time=" + Compacted(evaluation, cal), "pit_valid=" + Bool(PitValid(i, evaluation)))))))))
  }

  lemma HeadOfJoin(c: char, a: string, b: string)
    ensures ([c] + a) + ":" + b == [c] + (a + ":" + b)
  {
  }

  lemma {:induction false} SplitJoins(a: string, b: string)
    ensures Split(a + ":" + b) == Split(a) + Split(b)
  {
    if a == "" {
      assert a + ":" + b == [':'] + b;
      assert [""] + Split(b) == Split("") + Split(b);
    } else {
      var c, rest := a[0], a[1..];
      assert a == [c] + rest;
      hide *;
      HeadOfJoin(c, rest, b);
      SplitJoins(rest, b);
    }
  }

  lemma {:induction false} SplitWithoutColon(s: string)
    ensures ':' !in s ==> Split(s) == [s]
    ensures forall t | t in Split(s) :: ':' !in t
  {
    if s != "" {
      var rest := Split(s[1..]);
      SplitWithoutColon(s[1..]);
      assert s == [s[0]] + s[1..];
      assert rest == [rest[0]] + rest[1..];
      hide Split;
      if s[0] != ':' {
        forall t | t in Split(s) ensures ':' !in t {
          if t != [s[0]] + rest[0] {
            assert t in rest[1..];
          }
        }
      }
    }
  }

  lemma {:induction false} KeyValueOf(key: string, value: string)
    requires '=' !in key
    ensures KeyValue(key + "=" + value) == Some((key, value))
  {
    var token := key + "=" + value;
    if key == "" {
      assert token[1..] == value;
    } else {
      KeyValueOf(key[1..], value);
      assert token[1..] == key[1..] + "=" + value;
      assert key == [key[0]] + key[1..];
    }
  }

  lemma {:induction false} KeyValueParts(token: string)
    requires ':' !in token && KeyValue(token).Some?
    ensures ':' !in KeyValue(token).value.1
  {
    if token[0] != '=' {
      KeyValueParts(token[1..]);
    }
  }

  lemma {:induction false} FieldsWithoutColon(tokens: seq<string>)
    requires forall t | t in tokens :: ':' !in t
    ensures forall k | k in Fields(tokens) :: ':' !in Fields(tokens)[k]
  {
    if tokens != [] {
      var n := |tokens| - 1;
      assert tokens == tokens[..n] + [tokens[n]];
      FieldsWithoutColon(tokens[..n]);
      if KeyValue(tokens[n]).Some? {
        KeyValueParts(tokens[n]);
      }
      hide KeyValue;
    }
  }

  lemma PutKey(fields: map<string, string>, key: string, value: string)
    requires '=' !in key
    ensures Put(fields, key + "=" + value) == fields[key := value]
  {
    KeyValueOf(key, value);
    hide KeyValue;
  }

  lemma PrefixText(x: string)
    ensures Colon("pit", Colon("kraken_public_ohlc", x)) == PREFIX + x
  {
  }

  lemma DropTwo(p: string, q: string, rest: seq<string>)
    ensures ([p] + ([q] + rest))[2..] == rest && |[p] + ([q] + rest)| == |rest| + 2
  {
  }

  lemma PrefixOfRef(x: string)
    ensures PREFIX <= Colon("pit", Colon("kraken_public_ohlc", x))
    ensures Tokens(Colon("pit", Colon("kraken_public_ohlc", x))) == Split(x)
  {
    assert ':' !in "pit" && ':' !in "kraken_public_ohlc";
    hide Split, Colon;
    PrefixText(x);
    SplitToken("pit", Colon("kraken_public_ohlc", x));
    SplitToken("kraken_public_ohlc", x);
    DropTwo("pit", "kraken_public_ohlc", Split(x));
  }

  /** A token without colons in front of the rest is one part. */
  lemma SplitToken(token: string, rest: string)
    requires ':' !in token
    ensures Split(Colon(token, rest)) == [token] + Split(rest)
  {
    SplitJoins(token, rest);
    SplitWithoutColon(token);
    hide Split;
  }

  lemma CompactedIsToken(event: int, cal: Calendar)
    requires IsCalendar(cal) && Printable(FloorSecond(event))
    ensures ':' !in Compacted(event, cal)
    ensures ReadInstant(Compacted(event, cal), cal) == Some(FloorSecond(event) * SECOND)
  {
    CompactHasNoColon(cal.civil(FloorSecond(event)));
    ReadCivilOfCompact(cal.civil(FloorSecond(event)));
    hide Compact, ReadCivil;
  }

  lemma TailTokens(event: string, invariantText: string, evaluation: string, valid: string)
    requires ':' !in event && ':' !in invariantText && ':' !in evaluation && ':' !in valid
    ensures Split(Colon("event=" + event, Colon("epoch_invariant=" + invariantText,
                  Colon("evaluation_time=" + evaluation, "pit_valid=" + valid))))
         == ["event=" + event, "epoch_invariant=" + invariantText, "evaluation_time=" + evaluation,
             "pit_valid=" + valid]
  {
    SplitToken("event=" + event, Colon("epoch_invariant=" + invariantText,
                                   Colon("evaluation_time=" + evaluation, "pit_valid=" + valid)));
    SplitToken("epoch_invariant=" + invariantText, Colon("evaluation_time=" + evaluation, "pit_valid=" + valid));
    SplitToken("evaluation_time=" + evaluation, "pit_valid=" + valid);
    SplitWithoutColon("pit_valid=" + valid);
    hide Split, Colon;
  }

  /** The last four tokens fix their fields and leave the two before them alone. */
  lemma TailFields(head: seq<string>, event: string, invariantText: string, evaluation: string, valid: string)
    ensures Fields(head + ["event=" + event, "epoch_invariant=" + invariantText,
                           "evaluation_time=" + evaluation, "pit_valid=" + valid])
         == Fields(head)["event" := event]["epoch_invariant" := invariantText]
                        ["evaluation_time" := evaluation]["pit_valid" := valid]
  {
    var e, v := "event=" + event, "epoch_invariant=" + invariantText;
    var t, p := "evaluation_time=" + evaluation, "pit_valid=" + valid;
    assert head + [e, v, t, p] == head + [e] + [v] + [t] + [p];
    assert e == "event" + "=" + event && v == "epoch_invariant" + "=" + invariantText;
    assert t == "evaluation_time" + "=" + evaluation && p == "pit_valid" + "=" + valid;
    hide Fields, Put;
    PutKey(Fields(head), "event", event);
    PutKey(Fields(head + [e]), "epoch_invariant", invariantText);
    PutKey(Fields(head + [e] + [v]), "evaluation_time", evaluation);
    PutKey(Fields(head + [e] + [v] + [t]), "pit_valid", valid);
  }

  function HeadTokens(name: string, kind: string): seq<string> {
    Split("input=" + name) + Split("kind=" + kind)
  }

  lemma HeadHasNoColon(name: string, kind: string)
    ensures forall k | k in Fields(HeadTokens(name, kind)) :: ':' !in Fields(HeadTokens(name, kind))[k]
  {
    SplitWithoutColon("input=" + name);
    SplitWithoutColon("kind=" + kind);
    hide Split;
    FieldsWithoutColon(HeadTokens(name, kind));
  }

  /** A kind without colons is recovered whatever the name holds; then a name is recovered
      when it has no colon either. */
  lemma HeadFields(name: string, kind: string)
    ensures var f := Fields(HeadTokens(name, kind));
      && (':' !in kind ==> "kind" in f && f["kind"] == kind)
      && (':' !in kind && ':' !in name ==> "input" in f && f["input"] == name)
  {
    SplitWithoutColon("input=" + name);
    SplitWithoutColon("kind=" + kind);
    hide Split;
    if ':' !in kind {
      assert "kind=" + kind == "kind" + "=" + kind && "input=" + name == "input" + "=" + name;
      assert [] + ["input=" + name] == ["input=" + name];
      hide Fields, Put;
      PutKey(Fields(Split("input=" + name)), "kind", kind);
      PutKey(Fields([]), "input", name);
    }
  }

  /** What the parser recovers from a printed reference. */
  function Recovered(i: Input): Input {
    var f := Fields(HeadTokens(i.name, i.kind));
    Input(Get(f, "input", "UNKNOWN"), Get(f, "kind", MARKET), FloorSecond(i.event) * SECOND, i.epochInvariant)
  }

  lemma BoolIsToken(b: bool)
    ensures ':' !in Bool(b) && (Bool(b) == "True" <==> b)
  {
  }

  lemma TokensOfRef(i: Input, evaluation: int, cal: Calendar)
    requires IsCalendar(cal) && Printable(FloorSecond(i.event)) && Printable(FloorSecond(evaluation))
    ensures PREFIX <= Ref(i, evaluation, cal)
    ensures Tokens(Ref(i, evaluation, cal)) == HeadTokens(i.name, i.kind) +
      ["event=" + Compacted(i.event, cal), "epoch_invariant=" + Bool(i.epochInvariant),
       "evaluation_time=" + Compacted(evaluation, cal), "pit_valid=" + Bool(PitValid(i, evaluation))]
  {
    CompactedIsToken(i.event, cal);
    CompactedIsToken(evaluation, cal);
    BoolIsToken(i.epochInvariant);
    BoolIsToken(PitValid(i, evaluation));
    hide Compacted, Bool, PitValid, Split, Tokens;
    var tail := Colon("event=" + Compacted(i.event, cal), Colon("epoch_invariant=" + Bool(i.epochInvariant),
                  Colon("evaluation_time=" + Compacted(evaluation, cal),
                        "pit_valid=" + Bool(PitValid(i, evaluation)))));
    TailTokens(Compacted(i.event, cal), Bool(i.epochInvariant), Compacted(evaluation, cal),
               Bool(PitValid(i, evaluation)));
    SplitJoins("kind=" + i.kind, tail);
    SplitJoins("input=" + i.name, Colon("kind=" + i.kind, tail));
    PrefixOfRef(Colon("input=" + i.name, Colon("kind=" + i.kind, tail)));
    AppendIsAssociative(Split("input=" + i.name), Split("kind=" + i.kind), Split(tail));
  }

  lemma FromTail(f: map<string, string>, event: string, invariantText: string, evaluation: string, valid: string,
                 instant: int, cal: Calendar)
    requires ReadInstant(event, cal) == Some(instant)
    ensures FromFields(f["event" := event]["epoch_invariant" := invariantText]
                        ["evaluation_time" := evaluation]["pit_valid" := valid], cal)
         == Read(Input(Get(f, "input", "UNKNOWN"), Get(f, "kind", MARKET), instant, invariantText == "True"))
  {
    hide ReadInstant;
  }

  lemma ParseMeans(r: string, cal: Calendar)
    requires PREFIX <= r
    ensures Parse(r, cal) == FromFields(Fields(Tokens(r)), cal)
  {
    hide FromFields, Fields, Tokens;
  }

  /** The round trip: parsing a printed reference always gives the whole-second event and the
      flag; it gives the kind exactly when the kind has no colon, and then the name exactly
      when the name has none. */
  lemma ProvenanceRoundTrip(i: Input, evaluation: int, cal: Calendar)
    requires IsCalendar(cal) && Printable(FloorSecond(i.event)) && Printable(FloorSecond(evaluation))
    ensures Parse(Ref(i, evaluation, cal), cal) == Read(Recovered(i))
    ensures Recovered(i).kind == i.kind <==> ':' !in i.kind
    ensures ':' !in i.kind ==> (Recovered(i).name == i.name <==> ':' !in i.name)
  {
    RecoveredNameAndKind(i);
    BoolIsToken(i.epochInvariant);
    ParsesToRecovered(i, evaluation, cal);
  }

  lemma RecoveredNameAndKind(i: Input)
    ensures Recovered(i).kind == i.kind <==> ':' !in i.kind
    ensures ':' !in i.kind ==> (Recovered(i).name == i.name <==> ':' !in i.name)
  {
    HeadHasNoColon(i.name, i.kind);
    HeadFields(i.name, i.kind);
    hide HeadTokens, Fields;
    assert ':' !in "UNKNOWN" && ':' !in MARKET;
  }

  lemma ParsesToRecovered(i: Input, evaluation: int, cal: Calendar)
    requires IsCalendar(cal) && Printable(FloorSecond(i.event)) && Printable(FloorSecond(evaluation))
    ensures Parse(Ref(i, evaluation, cal), cal) == Read(Recovered(i))
  {
    hide HeadTokens, Fields, Ref, Compacted, Bool, Tokens, ReadInstant, PitValid;
    hide FloorSecond, IsCalendar, Printable, FromFields, Parse, Get;
    var head := HeadTokens(i.name, i.kind);
    CompactedIsToken(i.event, cal);
    BoolIsToken(i.epochInvariant);
    TokensOfRef(i, evaluation, cal);
    ParseMeans(Ref(i, evaluation, cal), cal);
    TailFields(head, Compacted(i.event, cal), Bool(i.epochInvariant), Compacted(evaluation, cal),
               Bool(PitValid(i, evaluation)));
    FromTail(Fields(head), Compacted(i.event, cal), Bool(i.epochInvariant), Compacted(evaluation, cal),
             Bool(PitValid(i, evaluation)), FloorSecond(i.event) * SECOND, cal);
  }

  // ----- validity and the builders -----

  /** Reading back a printed input never makes it stricter, and agrees with the original on
      validity exactly unless the event lies inside the very second the epoch has begun. */
  lemma RecomputedValidityIff(i: Input, evaluation: int)
    requires ':' !in i.kind
    ensures PitValid(i, evaluation) ==> PitValid(Recovered(i), evaluation)
    ensures (PitValid(Recovered(i), evaluation) <==> PitValid(i, evaluation))
       <==> Exempt(i) || !(FloorSecond(i.event) * SECOND <= evaluation < i.event)
    ensures evaluation % SECOND == 0 && FloorSecond(i.event) * SECOND <= evaluation < i.event ==>
      FloorSecond(i.event) * SECOND == evaluation
  {
    RecoveredNameAndKind(i);
    hide HeadTokens, Fields;
  }

  /** The exception is real: half a second after a whole-second epoch. */
  lemma FractionRescuesAnInput(i: Input, evaluation: int)
    requires ':' !in i.kind && i.kind == MARKET && evaluation % SECOND == 0 && i.event == evaluation + SECOND / 2
    ensures !PitValid(i, evaluation) && PitValid(Recovered(i), evaluation)
  {
    RecomputedValidityIff(i, evaluation);
    assert FloorSecond(i.event) * SECOND == evaluation;
    hide Recovered;
  }

  /** The inputs that break the contract. */
  function Violations(inputs: seq<Input>, evaluation: int): seq<Input> {
    if inputs == [] then []
    else
      Violations(inputs[..|inputs| - 1], evaluation)
        + if PitValid(inputs[|inputs| - 1], evaluation) then [] else [inputs[|inputs| - 1]]
  }

  lemma {:induction false} NoViolationsIff(inputs: seq<Input>, evaluation: int)
    ensures Violations(inputs, evaluation) == [] <==> forall i | i in inputs :: PitValid(i, evaluation)
  {
    if inputs != [] {
      var n := |inputs| - 1;
      assert inputs == inputs[..n] + [inputs[n]];
      NoViolationsIff(inputs[..n], evaluation);
    }
  }

  /** The final gate over the collected inputs. */
  method AssertSupport(inputs: seq<Input>, evaluation: int) returns (ok: bool)
    ensures ok <==> forall i | i in inputs :: PitValid(i, evaluation)
  {
    var violations := [];
    for i := 0 to |inputs|
      invariant violations == Violations(inputs[..i], evaluation)
    {
      assert inputs[..i + 1][..i] == inputs[..i];
      if !PitValid(inputs[i], evaluation) {
        violations := violations + [inputs[i]];
      } else {
        assert violations + [] == violations;
      }
    }
    assert inputs[..|inputs|] == inputs;
    NoViolationsIff(inputs, evaluation);
    return violations == [];
  }

  /** `Violated` is the refusal of the final gate, `Unread` an error of the live book read. */
  datatype Built = Refused(why: EvidenceAnchor.Result) | Unread | Violated | Published(inputs: seq<Input>)

  function Analytical(a: Anchor): Input {
    Input("analytical_60m_ohlc", MARKET, a.analyticalCutoff, false)
  }

  function Freshness(a: Anchor): Input {
    Input("freshness_1m_anchor", MARKET, a.close, false)
  }

  function Book(name: string, acquired: int): Input {
    Input(name, MARKET, acquired, false)
  }

  function Discovery(acquired: int): Input {
    Input("margin_venue_discovery", VENUE, acquired, true)
  }

  /** A record built from an anchor lists only inputs that its epoch admits, in this order,
      and lists the live book exactly when the read was not after the epoch. */
  ghost predicate Supports(inputs: seq<Input>, a: Anchor, evaluation: nat, acquired: nat, others: seq<Input>,
                           book: seq<Input>) {
    && inputs == [Input("analytical_60m_ohlc", "market", a.analyticalCutoff, false),
                  Input("freshness_1m_anchor", "market", a.close, false)] + others + book
    && (forall i | i in inputs :: i.epochInvariant <==> i.kind == "venue_metadata")
    && (book != [] ==> acquired <= evaluation)
    && forall i | i in inputs :: PitValid(i, evaluation)
  }

  /** The LONG builder: an anchor publishes unless a book read that the epoch admits raises;
      the final gate never fires. */
  method BuildLong(candles: seq<Candle>, minutes: seq<Candle>, evaluation: nat, acquired: nat, bookRead: bool)
    returns (r: Built)
    ensures r.Published? <==>
      Resolve(candles, minutes, evaluation, acquired).Anchored? && (acquired <= evaluation ==> bookRead)
    ensures r.Refused? <==> !Resolve(candles, minutes, evaluation, acquired).Anchored?
    ensures !r.Violated?
    ensures r.Published? ==>
      Supports(r.inputs, Resolve(candles, minutes, evaluation, acquired).anchor, evaluation, acquired,
               [], if acquired <= evaluation then [Input("spot_order_book", "market", acquired, false)] else [])
  {
    hide Resolve;
    var resolved := ResolveAnchor(candles, minutes, evaluation, acquired);
    if !resolved.Anchored? {
      return Refused(resolved);
    }
    AnchorIsFresh(candles, minutes, evaluation, acquired);
    var a := resolved.anchor;
    var inputs := [Analytical(a), Freshness(a)];
    if acquired <= evaluation {
      if !bookRead {
        return Unread;
      }
      inputs := inputs + [Book("spot_order_book", acquired)];
    }
    assert inputs == [Analytical(a), Freshness(a)] + []
      + if acquired <= evaluation then [Book("spot_order_book", acquired)] else [];
    var ok := AssertSupport(inputs, evaluation);
    r := if ok then Published(inputs) else Violated;
  }

  /** The SHORT builder: venue metadata is exempt, and the margin book is listed exactly when
      the pair is eligible, the read was not after the epoch, and it succeeded. */
  method BuildShort(candles: seq<Candle>, minutes: seq<Candle>, evaluation: nat, acquired: nat, eligible: bool,
                    bookRead: bool)
    returns (r: Built)
    ensures r.Published? <==> Resolve(candles, minutes, evaluation, acquired).Anchored?
    ensures r.Refused? <==> !Resolve(candles, minutes, evaluation, acquired).Anchored?
    ensures r.Published? ==>
      Supports(r.inputs, Resolve(candles, minutes, evaluation, acquired).anchor, evaluation, acquired,
               [Input("margin_venue_discovery", "venue_metadata", acquired, true)],
               if eligible && acquired <= evaluation && bookRead
               then [Input("btnl_margin_book", "market", acquired, false)] else [])
  {
    hide Resolve;
    var resolved := ResolveAnchor(candles, minutes, evaluation, acquired);
    if !resolved.Anchored? {
      return Refused(resolved);
    }
    AnchorIsFresh(candles, minutes, evaluation, acquired);
    var a := resolved.anchor;
    var inputs := [Analytical(a), Freshness(a)];
    inputs := inputs + [Discovery(acquired)];
    if eligible && acquired <= evaluation {
      if bookRead {
        inputs := inputs + [Book("btnl_margin_book", acquired)];
      }
    }
    assert inputs == [Analytical(a), Freshness(a)] + [Discovery(acquired)]
      + if eligible && acquired <= evaluation && bookRead then [Book("btnl_margin_book", acquired)] else [];
    var ok := AssertSupport(inputs, evaluation);
    r := if ok then Published(inputs) else Violated;
  }

  /** Every reference a published record carries reads back as its own input, with the event
      in whole seconds, and is still valid when recomputed. */
  lemma PublishedRefsReadBack(inputs: seq<Input>, a: Anchor, evaluation: nat, acquired: nat, others: seq<Input>,
                              book: seq<Input>, i: Input, cal: Calendar)
    requires Supports(inputs, a, evaluation, acquired, others, book) && i in inputs
    requires ':' !in i.name && ':' !in i.kind && IsCalendar(cal)
    requires Printable(FloorSecond(i.event)) && Printable(FloorSecond(evaluation))
    ensures Parse(Ref(i, evaluation, cal), cal) == Read(i.(event := FloorSecond(i.event) * SECOND))
    ensures PitValid(i.(event := FloorSecond(i.event) * SECOND), evaluation)
  {
    hide Parse, Ref, Get, Printable, HeadTokens, Fields, IsCalendar;
    ProvenanceRoundTrip(i, evaluation, cal);
    RecomputedValidityIff(i, evaluation);
  }
}
