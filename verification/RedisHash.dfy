/**
 Objects stored as Redis hashes: each field of a struct is written as text under
 its name and read back by the kind of the field.
 */
module RedisHash {
  import opened Common

  type Int64 = i: int | -0x8000_0000_0000_0000 <= i < 0x8000_0000_0000_0000

  datatype Kind = StrKind | IntKind | BoolKind

  datatype Basic = Str(s: string) | Int(i: Int64) | Bool(b: bool)

  /** What a struct field holds: a basic value, a pointer to one, the
      soft-deletion time, or a value of a kind that cannot be read back. */
  datatype Slot =
    | Plain(value: Basic)
    | Pointer(kind: Kind, target: Option<Basic>)
    | DeletedAt(time: Option<int>)
    | Unsupported(printed: string)

  datatype Field = Field(name: string, slot: Slot)

  datatype Error = NotFound | BadInt(name: string) | BadBool(name: string) | BadTime(name: string)
                 | UnsupportedKind(name: string)

  function KindOf(v: Basic): Kind {
    match v case Str(_) => StrKind case Int(_) => IntKind case Bool(_) => BoolKind
  }

  function Zero(k: Kind): Basic {
    match k case StrKind => Str("") case IntKind => Int(0) case BoolKind => Bool(false)
  }

  /** Go's typing: a pointer refers to a value of its own kind, names differ. */
  ghost predicate Struct(fields: seq<Field>) {
    && (forall i :: 0 <= i < |fields| ==> TypedSlot(fields[i].slot))
    && (forall i, j :: 0 <= i < j < |fields| ==> fields[i].name != fields[j].name)
  }

  ghost predicate TypedSlot(slot: Slot) {
    slot.Pointer? && slot.target.Some? ==> KindOf(slot.target.value) == slot.kind
  }

  // ---- numbers and truth values as text --------------------------------------------------------

  const DIGITS := "0123456789"

  predicate IsDigit(c: char) { '0' <= c <= '9' }

  function DigitValue(c: char): nat
    requires IsDigit(c)
  {
    c as int - '0' as int
  }

  predicate AllDigits(s: string) { forall i :: 0 <= i < |s| ==> IsDigit(s[i]) }

  function Decimal(n: nat): (s: string)
    ensures |s| > 0 && AllDigits(s)
  {
    if n < 10 then [DIGITS[n]] else Decimal(n / 10) + [DIGITS[n % 10]]
  }

  function FormatInt(i: int): string {
    if i < 0 then "-" + Decimal(-i) else Decimal(i)
  }

  function Magnitude(s: string): nat
    requires AllDigits(s)
  {
    if s == "" then 0 else 10 * Magnitude(s[..|s| - 1]) + DigitValue(s[|s| - 1])
  }

  /** strconv.ParseInt(s, 10, 64). */
  function ParseInt(s: string): Option<Int64> {
    if s == "" then None
    else
      var rest := if s[0] == '-' || s[0] == '+' then s[1..] else s;
      if rest == "" || !AllDigits(rest) then None
      else
        var value: int := if s[0] == '-' then 0 - Magnitude(rest) else Magnitude(rest);
        if -0x8000_0000_0000_0000 <= value < 0x8000_0000_0000_0000 then Some(value) else None
  }

  function FormatBool(b: bool): string { if b then "true" else "false" }

  /** strconv.ParseBool. */
  function ParseBool(s: string): Option<bool> {
    if s in ["1", "t", "T", "true", "TRUE", "True"] then Some(true)
    else if s in ["0", "f", "F", "false", "FALSE", "False"] then Some(false)
    else None
  }

  lemma {:induction false} MagnitudeOfDecimal(n: nat)
    ensures Magnitude(Decimal(n)) == n
  {
    var s := Decimal(n);
    if n < 10 {
      assert Magnitude(s[..0]) == 0;
    } else {
      MagnitudeOfDecimal(n / 10);
      assert s[..|s| - 1] == Decimal(n / 10);
    }
  }

  /** Every int64 survives printing and parsing, the most negative one included. */
  lemma IntRoundTrip(i: Int64)
    ensures FormatInt(i) != "" && ParseInt(FormatInt(i)) == Some(i)
  {
    var n := if i < 0 then 0 - i else i;
    MagnitudeOfDecimal(n);
    var s := FormatInt(i);
    if i < 0 {
      assert s[1..] == Decimal(n);
    } else {
      assert IsDigit(s[0]);
    }
  }

  // ---- writing ---------------------------------------------------------------------------------

  function BasicText(v: Basic): string {
    match v
    case Str(s) => s
    case Int(i) => FormatInt(i)
    case Bool(b) => FormatBool(b)
  }

  function Text(slot: Slot): string {
    match slot
    case Plain(v) => BasicText(v)
    case Pointer(_, None) => ""
    case Pointer(_, Some(v)) => BasicText(v)
    case DeletedAt(_) => ""
    case Unsupported(printed) => printed
  }

  /** The hash holds exactly the fields that are not soft-deletion times, each
      with its own text. */
  ghost predicate IsHashOf(hash: map<string, string>, fields: seq<Field>) {
    && (forall i :: 0 <= i < |fields| && !fields[i].slot.DeletedAt? ==>
          fields[i].name in hash && hash[fields[i].name] == Text(fields[i].slot))
    && (forall i :: 0 <= i < |fields| && fields[i].slot.DeletedAt? ==> fields[i].name !in hash)
    && (forall name <- hash :: exists i :: 0 <= i < |fields| && fields[i].name == name)
  }

  /** The encoding loop of RedisHSetObj. */
  method HSetObj(fields: seq<Field>) returns (data: map<string, string>)
    requires Struct(fields)
    ensures IsHashOf(data, fields)
  {
    data := map[];
    for i := 0 to |fields|
      invariant IsHashOf(data, fields[..i])
    {
      hide Text, TypedSlot;
      ghost var before := data;
      var name, slot := fields[i].name, fields[i].slot;
      if !slot.DeletedAt? {
        var text := TextOf(slot);
        data := data[name := text];
      }
      ExtendHash(before, fields, i);
    }
    assert fields[..|fields|] == fields;
  }

  /** One field more. */
  lemma ExtendHash(hash: map<string, string>, fields: seq<Field>, i: nat)
    requires i < |fields| && Struct(fields) && IsHashOf(hash, fields[..i])
    ensures var f := fields[i];
      IsHashOf(if f.slot.DeletedAt? then hash else hash[f.name := Text(f.slot)], fields[..i + 1])
  {
    hide Text, TypedSlot;
    var f, shorter, longer := fields[i], fields[..i], fields[..i + 1];
    assert forall k :: 0 <= k < i ==> longer[k] == shorter[k] && longer[k].name != f.name;
    assert longer[i] == f;
    assert forall name <- hash :: name != f.name;
    var now := if f.slot.DeletedAt? then hash else hash[f.name := Text(f.slot)];
    forall name <- now
      ensures exists k :: 0 <= k < |longer| && longer[k].name == name
    {
      if name == f.name {
        assert longer[i].name == name;
      } else {
        var k :| 0 <= k < |shorter| && shorter[k].name == name;
        assert longer[k].name == name;
      }
    }
  }

  /** How one field is written. */
  method TextOf(slot: Slot) returns (text: string)
    ensures text == Text(slot)
  {
    var value: Basic;
    match slot {
      case DeletedAt(_) => return "";
      case Unsupported(printed) => return printed;
      case Pointer(_, target) =>
        if target.None? { return ""; }
        value := target.value;
      case Plain(v) => value := v;
    }
    if value.Bool? { return FormatBool(value.b); }
    match value {
      case Str(s) => text := s;
      case Int(i) => text := FormatInt(i);
    }
  }

  // ---- reading ---------------------------------------------------------------------------------

  /** A basic value read from text; None when the text does not parse. */
  function ParseBasic(k: Kind, text: string): Option<Basic> {
    match k
    case StrKind => Some(Str(text))
    case IntKind => (match ParseInt(text) case Some(i) => Some(Int(i)) case None => None)
    case BoolKind => (match ParseBool(text) case Some(b) => Some(Bool(b)) case None => None)
  }

  function Unreadable(name: string, k: Kind): Error {
    if k == IntKind then BadInt(name) else BadBool(name)
  }

  datatype Read = Read(slot: Slot, error: Option<Error>)

  /** One field read from its text. A pointer is allocated before its text is parsed. */
  function ReadSlot(name: string, slot: Slot, text: string, parseTime: string -> Option<int>): Read {
    match slot
    case Plain(v) =>
      (match ParseBasic(KindOf(v), text)
       case Some(w) => Read(Plain(w), None)
       case None => Read(slot, Some(Unreadable(name, KindOf(v)))))
    case Pointer(k, target) =>
      if text == "" then Read(slot, None)
      else
        (match ParseBasic(k, text)
         case Some(w) => Read(Pointer(k, Some(w)), None)
         case None => Read(if target.None? then Pointer(k, Some(Zero(k))) else slot, Some(Unreadable(name, k))))
    case DeletedAt(_) =>
      if text == "" then Read(slot, None)
      else if parseTime(text).None? then Read(slot, Some(BadTime(name)))
      else Read(DeletedAt(parseTime(text)), None)
    case Unsupported(_) => Read(slot, Some(UnsupportedKind(name)))
  }

  function ReadField(f: Field, hash: map<string, string>, parseTime: string -> Option<int>): Read {
    if f.name in hash then ReadSlot(f.name, f.slot, hash[f.name], parseTime) else Read(f.slot, None)
  }

  datatype Outcome = Outcome(fields: seq<Field>, error: Option<Error>)

  /** Fields from i on read one by one, up to the first that cannot be read. */
  function ReadFrom(fields: seq<Field>, i: nat, hash: map<string, string>, parseTime: string -> Option<int>): Outcome
    decreases |fields| - i
  {
    if i >= |fields| then Outcome(fields, None)
    else
      var r := ReadField(fields[i], hash, parseTime);
      var next := fields[i := fields[i].(slot := r.slot)];
      if r.error.Some? then Outcome(next, r.error) else ReadFrom(next, i + 1, hash, parseTime)
  }

  function Loaded(fields: seq<Field>, hash: map<string, string>, parseTime: string -> Option<int>): Outcome {
    if |hash| == 0 then Outcome(fields, Some(NotFound)) else ReadFrom(fields, 0, hash, parseTime)
  }

  /** The object a hash is loaded into. */
  class Object {
    var fields: seq<Field>

    constructor (fields: seq<Field>)
      ensures this.fields == fields
    {
      this.fields := fields;
    }

    /** The decoding loop of RedisHGetObj, which leaves the fields read so far in
        place when it stops at one that cannot be read. */
    method HGetObj(result: map<string, string>, parseTime: string -> Option<int>) returns (err: Option<Error>)
      modifies this
      ensures Outcome(fields, err) == Loaded(old(fields), result, parseTime)
    {
      hide ReadField;
      if |result| == 0 { return Some(NotFound); }
      for i := 0 to |fields|
        invariant |fields| == |old(fields)|
        invariant ReadFrom(old(fields), 0, result, parseTime) == ReadFrom(fields, i, result, parseTime)
      {
        err := SetField(i, result, parseTime);
        if err.Some? { return; }
      }
      err := None;
    }

    method SetField(i: nat, result: map<string, string>, parseTime: string -> Option<int>) returns (err: Option<Error>)
      requires i < |fields|
      modifies this
      ensures var f := old(fields)[i];
        var r := ReadField(f, result, parseTime);
        fields == old(fields)[i := f.(slot := r.slot)] && err == r.error
    {
      hide ParseInt, ParseBool;
      err := None;
      var f := fields[i];
      if f.name in result {
        var value := result[f.name];
        if f.slot.Pointer? && value == "" { return; }
        if f.slot.Pointer? && f.slot.target.None? {
          fields := fields[i := f.(slot := Pointer(f.slot.kind, Some(Zero(f.slot.kind))))];
        }
        match f.slot {
          case DeletedAt(_) =>
            if value != "" {
              if parseTime(value).None? { return Some(BadTime(f.name)); }
              fields := fields[i := f.(slot := DeletedAt(parseTime(value)))];
            }
          case Unsupported(_) => return Some(UnsupportedKind(f.name));
          case Plain(v) =>
            var parsed := ParseBasic(KindOf(v), value);
            if parsed.None? { return Some(Unreadable(f.name, KindOf(v))); }
            fields := fields[i := f.(slot := Plain(parsed.value))];
          case Pointer(k, _) =>
            var parsed := ParseBasic(k, value);
            if parsed.None? { return Some(Unreadable(f.name, k)); }
            fields := fields[i := f.(slot := Pointer(k, parsed))];
        }
      }
    }
  }

  // ---- the round trip --------------------------------------------------------------------------

  function ZeroSlot(slot: Slot): Slot {
    match slot
    case Plain(v) => Plain(Zero(KindOf(v)))
    case Pointer(k, _) => Pointer(k, None)
    case DeletedAt(_) => DeletedAt(None)
    case Unsupported(_) => slot
  }

  /** A fresh object of the same type. */
  function Blank(fields: seq<Field>): seq<Field> {
    seq(|fields|, i requires 0 <= i < |fields| => Field(fields[i].name, ZeroSlot(fields[i].slot)))
  }

  /** What is lost: a pointer to an empty string reads back as nil, a
      soft-deletion time is not written, and other kinds are refused. */
  predicate Survives(slot: Slot) {
    match slot
    case Plain(_) => true
    case Pointer(_, target) => target != Some(Str(""))
    case DeletedAt(time) => time.None?
    case Unsupported(_) => false
  }

  lemma BasicRoundTrip(v: Basic)
    ensures ParseBasic(KindOf(v), BasicText(v)) == Some(v)
    ensures BasicText(v) == "" <==> v == Str("")
  {
    if v.Int? { IntRoundTrip(v.i); }
  }

  /** One field reads back as itself exactly when it survives. */
  lemma FieldRoundTrip(f: Field, hash: map<string, string>, parseTime: string -> Option<int>)
    requires TypedSlot(f.slot)
    requires f.slot.DeletedAt? ==> f.name !in hash
    requires !f.slot.DeletedAt? ==> f.name in hash && hash[f.name] == Text(f.slot)
    ensures ReadField(Field(f.name, ZeroSlot(f.slot)), hash, parseTime) == Read(f.slot, None) <==> Survives(f.slot)
  {
    hide BasicText, ParseBasic;
    match f.slot {
      case Plain(v) => BasicRoundTrip(v);
      case Pointer(_, Some(v)) => BasicRoundTrip(v);
      case Pointer(_, None) =>
      case DeletedAt(_) =>
      case Unsupported(_) =>
    }
  }

  /** Reading succeeds exactly when every field can be read, and then each field
      holds what was read for it. */
  lemma {:induction false} ReadFromExactly(fields: seq<Field>, i: nat, hash: map<string, string>, parseTime: string -> Option<int>)
    requires i <= |fields|
    ensures var out := ReadFrom(fields, i, hash, parseTime);
      && |out.fields| == |fields|
      && (out.error.None? <==> forall k :: i <= k < |fields| ==> ReadField(fields[k], hash, parseTime).error.None?)
      && (forall k :: 0 <= k < i ==> out.fields[k] == fields[k])
      && (out.error.None? ==> forall k :: i <= k < |fields| ==>
            out.fields[k] == fields[k].(slot := ReadField(fields[k], hash, parseTime).slot))
    decreases |fields| - i
  {
    hide ReadField;
    if i < |fields| {
      var r := ReadField(fields[i], hash, parseTime);
      var next := fields[i := fields[i].(slot := r.slot)];
      if r.error.None? {
        ReadFromExactly(next, i + 1, hash, parseTime);
        assert forall k :: i < k < |fields| ==> next[k] == fields[k];
      }
    }
  }

  /** Loading a stored object into a fresh one returns the original exactly when
      something was stored and every field survives. */
  lemma RoundTripExactly(fields: seq<Field>, hash: map<string, string>, parseTime: string -> Option<int>)
    requires Struct(fields) && IsHashOf(hash, fields)
    ensures Loaded(Blank(fields), hash, parseTime) == Outcome(fields, None) <==>
      && (exists i :: 0 <= i < |fields| && !fields[i].slot.DeletedAt?)
      && (forall i :: 0 <= i < |fields| ==> Survives(fields[i].slot))
  {
    hide Text, ReadField, ReadFrom, ZeroSlot, Survives;
    var blank := Blank(fields);
    var out := ReadFrom(blank, 0, hash, parseTime);
    StoredExactlyWhenNotEmpty(fields, hash);
    ReadFromExactly(blank, 0, hash, parseTime);
    assert forall k :: 0 <= k < |fields| ==> blank[k] == Field(fields[k].name, ZeroSlot(fields[k].slot));
    forall k | 0 <= k < |fields|
      ensures ReadField(blank[k], hash, parseTime) == Read(fields[k].slot, None) <==> Survives(fields[k].slot)
    {
      FieldRoundTrip(fields[k], hash, parseTime);
    }
    if out == Outcome(fields, None) {
      forall k | 0 <= k < |fields|
        ensures Survives(fields[k].slot)
      {
        assert out.fields[k] == fields[k];
        assert ReadField(blank[k], hash, parseTime) == Read(fields[k].slot, None);
      }
    }
    if forall k :: 0 <= k < |fields| ==> Survives(fields[k].slot) {
      assert forall k :: 0 <= k < |fields| ==> ReadField(blank[k], hash, parseTime) == Read(fields[k].slot, None);
      assert forall k :: 0 <= k < |fields| ==> out.fields[k] == fields[k];
      assert out.fields == fields;
    }
  }

  lemma StoredExactlyWhenNotEmpty(fields: seq<Field>, hash: map<string, string>)
    requires IsHashOf(hash, fields)
    ensures |hash| != 0 <==> exists i :: 0 <= i < |fields| && !fields[i].slot.DeletedAt?
  {
    hide Text;
    if |hash| != 0 {
      var name :| name in hash;
      var i :| 0 <= i < |fields| && fields[i].name == name;
    }
    if i :| 0 <= i < |fields| && !fields[i].slot.DeletedAt? {
      assert fields[i].name in hash;
    }
  }

  /** A struct that does not come back: its pointer to "" reads as nil. */
  lemma EmptyStringPointerIsLost(parseTime: string -> Option<int>)
    ensures var fields := [Field("Id", Plain(Int(7))), Field("Group", Pointer(StrKind, Some(Str(""))))];
      var hash := map["Id" := "7", "Group" := ""];
      && Struct(fields) && IsHashOf(hash, fields)
      && Loaded(Blank(fields), hash, parseTime).error.None?
      && Loaded(Blank(fields), hash, parseTime).fields == fields[1 := Field("Group", Pointer(StrKind, None))]
  {
    var fields := [Field("Id", Plain(Int(7))), Field("Group", Pointer(StrKind, Some(Str(""))))];
    var hash := map["Id" := "7", "Group" := ""];
    assert Text(fields[0].slot) == "7" && Text(fields[1].slot) == "";
    assert forall name <- hash :: name == fields[0].name || name == fields[1].name;
    IntRoundTrip(7);
    ReadFromExactly(Blank(fields), 0, hash, parseTime);
    var out := ReadFrom(Blank(fields), 0, hash, parseTime);
    assert ReadField(Blank(fields)[0], hash, parseTime) == Read(Plain(Int(7)), None);
    assert ReadField(Blank(fields)[1], hash, parseTime) == Read(Pointer(StrKind, None), None);
    hide ReadFrom, ReadField;
    assert out.fields[0] == fields[0] && out.fields[1] == Field("Group", Pointer(StrKind, None));
  }

  /** Storing an object and loading it into a fresh one, end to end. */
  method StoreAndLoad(fields: seq<Field>, parseTime: string -> Option<int>) returns (loaded: seq<Field>, err: Option<Error>)
    requires Struct(fields)
    ensures (err == None && loaded == fields) <==>
      && (exists i :: 0 <= i < |fields| && !fields[i].slot.DeletedAt?)
      && (forall i :: 0 <= i < |fields| ==> Survives(fields[i].slot))
  {
    hide Loaded, Survives, Blank;
    var hash := HSetObj(fields);
    var target := new Object(Blank(fields));
    err := target.HGetObj(hash, parseTime);
    loaded := target.fields;
    RoundTripExactly(fields, hash, parseTime);
  }

  // ---- the texts, spelled out --------------------------------------------------------

  /** The text each kind of field is stored as. */
  lemma TextIs(slot: Slot)
    ensures slot.Pointer? && slot.target.None? ==> Text(slot) == ""
    ensures slot.Pointer? && slot.target.Some? ==> Text(slot) == Text(Plain(slot.target.value))
    ensures slot.Plain? && slot.value.Str? ==> Text(slot) == slot.value.s
    ensures slot.Plain? && slot.value.Bool? ==> Text(slot) == (if slot.value.b then "true" else "false")
  {
  }

  /** Numbers are printed in base ten: a digit alone, a further digit behind, a minus
      sign in front of a negative one, no sign and no leading zero otherwise. */
  lemma FormatIsDecimal(n: nat, d: nat)
    requires d < 10
    ensures FormatInt(d) == ["0123456789"[d]]
    ensures n > 0 ==> FormatInt(10 * n + d) == FormatInt(n) + ["0123456789"[d]] && FormatInt(0 - n) == "-" + FormatInt(n)
  {
    assert n > 0 ==> (10 * n + d) / 10 == n && (10 * n + d) % 10 == d;
  }

  /** A text is read as a number exactly when it is an optional sign followed by
      digits and nothing else, and the number fits 64 bits. */
  lemma ParseIntExactly(s: string)
    ensures ParseInt(s).Some? <==>
      && |s| > 0
      && var rest := if s[0] == '-' || s[0] == '+' then s[1..] else s;
      && |rest| > 0 && (forall c <- rest :: c in "0123456789")
      && AllDigits(rest)
      && (if s[0] == '-' then Magnitude(rest) <= 0x8000_0000_0000_0000 else Magnitude(rest) < 0x8000_0000_0000_0000)
  {
    if |s| > 0 {
      var rest := if s[0] == '-' || s[0] == '+' then s[1..] else s;
      DigitsAre(rest);
    }
  }

  lemma DigitsAre(s: string)
    ensures AllDigits(s) <==> forall c <- s :: c in "0123456789"
  {
    forall c: char ensures IsDigit(c) <==> c in "0123456789" {
      assert IsDigit(c) ==> "0123456789"[c as int - '0' as int] == c;
    }
    if AllDigits(s) {
      forall c <- s ensures c in "0123456789" {
        var i :| 0 <= i < |s| && s[i] == c;
      }
    }
  }

  /** A sign changes nothing but the sign. */
  lemma ParseSigned(n: nat)
    requires n < 0x8000_0000_0000_0000
    ensures ParseInt(FormatInt(n)) == Some(n) && ParseInt("+" + FormatInt(n)) == Some(n)
    ensures ParseInt("-" + FormatInt(n)) == Some(0 - n)
  {
    MagnitudeOfDecimal(n);
    var s := FormatInt(n);
    assert IsDigit(s[0]);
    assert ("+" + s)[1..] == s && ("-" + s)[1..] == s;
  }

  /** Which texts cannot be read into which fields: the error names the field, the
      field keeps its value, and a nil pointer has been allocated. */
  lemma ReadErrors(name: string, slot: Slot, text: string, parseTime: string -> Option<int>)
    ensures var r := ReadSlot(name, slot, text, parseTime);
      && (slot.Plain? && slot.value.Int? ==>
            if ParseInt(text).None? then r == Read(slot, Some(BadInt(name)))
            else r == Read(Plain(Int(ParseInt(text).value)), None))
      && (slot.Plain? && slot.value.Bool? ==>
            if text in ["1", "t", "T", "true", "TRUE", "True"] then r == Read(Plain(Bool(true)), None)
            else if text in ["0", "f", "F", "false", "FALSE", "False"] then r == Read(Plain(Bool(false)), None)
            else r == Read(slot, Some(BadBool(name))))
      && (slot.Plain? && slot.value.Str? ==> r == Read(Plain(Str(text)), None))
      && (slot.Pointer? && text == "" ==> r == Read(slot, None))
      && (slot.Pointer? && text != "" && slot.kind == IntKind && ParseInt(text).None? ==>
            r == Read(Pointer(IntKind, if slot.target.None? then Some(Int(0)) else slot.target), Some(BadInt(name))))
      && (slot.DeletedAt? && text == "" ==> r == Read(slot, None))
      && (slot.Unsupported? ==> r == Read(slot, Some(UnsupportedKind(name))))
  {
    hide ParseInt;
  }
}
