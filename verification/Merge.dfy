/** merge/merge.go, merge/casts.go: flat text options written into the tagged fields of a tree
    of structs. Reflection is replaced by the tree of fields it walks; the values of the fields
    live in an array of cells, which pointers may share. */
module Merge {
  import opened Wrappers
  import opened Iteration

  // ---- Casts -----------------------------------------------------------------------------

  /** The kinds that can be set. */
  datatype Kind = Int | Int32 | Int64 | Uint | Uint32 | Uint64 | Bool | String

  datatype Value = IntV(i: int) | UintV(u: nat) | BoolV(b: bool) | StringV(s: string)

  predicate AllDigits(s: string) {
    forall i :: 0 <= i < |s| ==> '0' <= s[i] <= '9'
  }

  function Number(digits: string): nat
    requires AllDigits(digits)
  {
    if digits == "" then 0
    else 10 * Number(digits[..|digits| - 1]) + (digits[|digits| - 1] - '0') as nat
  }

  /** strconv.ParseUint in base 10; `bound` is two to the power of the bit size. */
  function ParseUint(s: string, bound: int): Option<nat> {
    if s == "" || !AllDigits(s) || Number(s) >= bound then None else Some(Number(s))
  }

  /** strconv.ParseInt in base 10. */
  function ParseInt(s: string, bound: int): Option<int> {
    var digits := if s != "" && (s[0] == '+' || s[0] == '-') then s[1..] else s;
    if digits == "" || !AllDigits(digits) then None else
    var n: int := if s[0] == '-' then -(Number(digits) as int) else Number(digits);
    if -bound <= 2 * n < bound then Some(n) else None
  }

  function ParseBool(s: string): Option<bool> {
    if s in ["1", "t", "T", "TRUE", "true", "True"] then Some(true)
    else if s in ["0", "f", "F", "FALSE", "false", "False"] then Some(false)
    else None
  }

  const B32: int := 0x1_0000_0000
  const B64: int := 0x1_0000_0000_0000_0000

  /** Plain int and uint are read as if they had 32 bits. */
  function Cast(kind: Kind, text: string): Option<Value> {
    match kind
    case Int | Int32 => if ParseInt(text, B32).None? then None else Some(IntV(ParseInt(text, B32).value))
    case Int64 => if ParseInt(text, B64).None? then None else Some(IntV(ParseInt(text, B64).value))
    case Uint | Uint32 => if ParseUint(text, B32).None? then None else Some(UintV(ParseUint(text, B32).value))
    case Uint64 => if ParseUint(text, B64).None? then None else Some(UintV(ParseUint(text, B64).value))
    case Bool => if ParseBool(text).None? then None else Some(BoolV(ParseBool(text).value))
    case String => Some(StringV(text))
  }

  /** The values a text can be cast to. */
  predicate Castable(kind: Kind, v: Value) {
    match kind
    case Int | Int32 => v.IntV? && -0x8000_0000 <= v.i < 0x8000_0000
    case Int64 => v.IntV? && -0x8000_0000_0000_0000 <= v.i < 0x8000_0000_0000_0000
    case Uint | Uint32 => v.UintV? && v.u < B32
    case Uint64 => v.UintV? && v.u < B64
    case Bool => v.BoolV?
    case String => v.StringV?
  }

  function Decimal(n: nat): (s: string)
    ensures s != "" && AllDigits(s)
  {
    var last := [(n % 10) as char + '0'];
    if n < 10 then last else Decimal(n / 10) + last
  }

  lemma {:induction false} DecimalIsNumber(n: nat)
    ensures Number(Decimal(n)) == n
  {
    var s := Decimal(n);
    if n >= 10 {
      DecimalIsNumber(n / 10);
      assert s[..|s| - 1] == Decimal(n / 10);
    } else {
      assert s[..|s| - 1] == "";
    }
  }

  lemma SignedDecimalParses(n: int, bound: int)
    requires -bound <= 2 * n < bound
    ensures ParseInt(if n < 0 then "-" + Decimal(-n) else Decimal(n), bound) == Some(n)
  {
    if n < 0 {
      DecimalIsNumber(-n);
      assert ("-" + Decimal(-n))[1..] == Decimal(-n);
    } else {
      DecimalIsNumber(n);
    }
  }

  /** Some text that is cast to a castable value. */
  function Spelling(v: Value): string {
    match v
    case IntV(i) => if i < 0 then "-" + Decimal(-i) else Decimal(i)
    case UintV(u) => Decimal(u)
    case BoolV(b) => if b then "true" else "false"
    case StringV(s) => s
  }

  lemma CastIsCastable(kind: Kind, text: string)
    ensures Cast(kind, text).Some? ==> Castable(kind, Cast(kind, text).value)
  {
  }

  lemma IntCasts(kind: Kind, text: string, i: int)
    requires Castable(kind, IntV(i))
    requires ParseInt(text, if kind.Int64? then B64 else B32) == Some(i)
    ensures Cast(kind, text) == Some(IntV(i))
  {
  }

  lemma IntSpelling(kind: Kind, i: int)
    requires Castable(kind, IntV(i))
    ensures Cast(kind, Spelling(IntV(i))) == Some(IntV(i))
  {
    SignedDecimalParses(i, if kind.Int64? then B64 else B32);
    IntCasts(kind, Spelling(IntV(i)), i);
  }

  lemma UintSpelling(kind: Kind, u: nat)
    requires Castable(kind, UintV(u))
    ensures Cast(kind, Spelling(UintV(u))) == Some(UintV(u))
  {
    DecimalIsNumber(u);
  }

  lemma BoolSpelling(b: bool)
    ensures ParseBool(if b then "true" else "false") == Some(b)
  {
  }

  lemma SpellingCasts(kind: Kind, v: Value)
    requires Castable(kind, v)
    ensures Cast(kind, Spelling(v)) == Some(v)
  {
    match v
    case IntV(i) => IntSpelling(kind, i);
    case UintV(u) => UintSpelling(kind, u);
    case BoolV(b) => BoolSpelling(b);
    case StringV(_) =>
  }

  /** The texts accepted for a kind are cast to its castable values, and to all of them. */
  lemma CastExactly(kind: Kind, v: Value)
    ensures (exists text :: Cast(kind, text) == Some(v)) <==> Castable(kind, v)
  {
    if text :| Cast(kind, text) == Some(v) {
      CastIsCastable(kind, text);
    }
    if Castable(kind, v) {
      SpellingCasts(kind, v);
    }
  }

  // Which texts are cast to a value

  /** The text is the number n in decimal, leading zeros allowed. */
  predicate Spells(text: string, n: nat) {
    text == Decimal(n) || (text != "" && text[0] == '0' && Spells(text[1..], n))
  }

  function Digit(c: char): nat
    requires '0' <= c <= '9'
  {
    (c - '0') as nat
  }

  lemma DecimalSnoc(m: nat, c: char)
    requires '0' <= c <= '9'
    ensures Decimal(10 * m + Digit(c)) == if m == 0 then [c] else Decimal(m) + [c]
  {
    var x := Digit(c);
    assert x < 10 && x as char + '0' == c;
    assert (10 * m + x) / 10 == m && (10 * m + x) % 10 == x;
  }

  lemma NumberSnoc(front: string, c: char)
    requires AllDigits(front) && '0' <= c <= '9'
    ensures AllDigits(front + [c]) && Number(front + [c]) == 10 * Number(front) + Digit(c)
  {
    assert (front + [c])[..|front|] == front;
  }

  lemma {:induction false} LeadingZero(digits: string)
    requires AllDigits(digits)
    ensures AllDigits("0" + digits) && Number("0" + digits) == Number(digits)
  {
    if digits == "" {
      NumberSnoc("", '0');
      assert "0" + digits == "" + ['0'];
    } else {
      var front, c := digits[..|digits| - 1], digits[|digits| - 1];
      LeadingZero(front);
      NumberSnoc(front, c);
      NumberSnoc("0" + front, c);
      assert digits == front + [c] && "0" + digits == "0" + front + [c];
    }
  }

  lemma OneDigit(c: char)
    requires '0' <= c <= '9'
    ensures AllDigits([c]) && Decimal(Number([c])) == [c] && (c != '0' ==> Number([c]) > 0)
  {
    NumberSnoc("", c);
    DecimalSnoc(0, c);
    assert "" + [c] == [c];
  }

  lemma CanonicalSnoc(front: string, c: char)
    requires AllDigits(front) && Number(front) > 0 && Decimal(Number(front)) == front && '0' <= c <= '9'
    ensures AllDigits(front + [c]) && Number(front + [c]) > 0 && Decimal(Number(front + [c])) == front + [c]
  {
    NumberSnoc(front, c);
    DecimalSnoc(Number(front), c);
  }

  /** Digits without a leading zero are the decimal form of their number. */
  lemma {:induction false} Canonical(digits: string)
    requires digits != "" && AllDigits(digits) && (|digits| == 1 || digits[0] != '0')
    ensures Decimal(Number(digits)) == digits && (digits[0] != '0' ==> Number(digits) > 0)
  {
    var front, c := digits[..|digits| - 1], digits[|digits| - 1];
    if |digits| == 1 {
      OneDigit(c);
      assert digits == [c];
    } else {
      Canonical(front);
      CanonicalSnoc(front, c);
      assert digits == front + [c];
    }
  }

  lemma {:induction false} SpellsExactly(text: string, n: nat)
    ensures Spells(text, n) <==> text != "" && AllDigits(text) && Number(text) == n
  {
    DecimalIsNumber(n);
    if text != "" && AllDigits(text) && (|text| == 1 || text[0] != '0') {
      Canonical(text);
    }
    if text != "" && text[0] == '0' {
      var rest := text[1..];
      assert text == "0" + rest;
      SpellsExactly(rest, n);
      if AllDigits(rest) {
        LeadingZero(rest);
      } else {
        assert !AllDigits(text) by {
          var i :| 0 <= i < |rest| && !('0' <= rest[i] <= '9');
          assert rest[i] == text[i + 1];
        }
      }
      assert !Spells("", n);
    }
  }

  /** A sign may come first, and a number below zero needs its own. */
  predicate SpellsSigned(text: string, i: int) {
    || (i >= 0 && Spells(text, i))
    || (text != "" && text[0] == '+' && i >= 0 && Spells(text[1..], i))
    || (text != "" && text[0] == '-' && i <= 0 && Spells(text[1..], -i))
  }

  lemma IntCastTexts(kind: Kind, text: string, i: int)
    ensures Cast(kind, text) == Some(IntV(i)) <==> Castable(kind, IntV(i)) && SpellsSigned(text, i)
  {
    IntTexts(text, i);
    ParseIntReads(text, B32, i);
    ParseIntReads(text, B64, i);
  }

  lemma ParseIntReads(text: string, bound: int, i: int)
    ensures ParseInt(text, bound) == Some(i) <==> -bound <= 2 * i < bound && Reads(text, i)
  {
  }

  lemma UintCastTexts(kind: Kind, text: string, u: nat)
    ensures Cast(kind, text) == Some(UintV(u)) <==> Castable(kind, UintV(u)) && Spells(text, u)
  {
    SpellsExactly(text, u);
    ParseUintReads(text, B32, u);
    ParseUintReads(text, B64, u);
  }

  lemma ParseUintReads(text: string, bound: int, u: nat)
    ensures ParseUint(text, bound) == Some(u) <==>
      u < bound && text != "" && AllDigits(text) && Number(text) == u
  {
  }

  lemma BoolCastTexts(kind: Kind, text: string, b: bool)
    ensures Cast(kind, text) == Some(BoolV(b)) <==>
      kind.Bool?
      && text in (if b then ["1", "t", "T", "TRUE", "true", "True"] else ["0", "f", "F", "FALSE", "false", "False"])
  {
    var yes, no := ["1", "t", "T", "TRUE", "true", "True"], ["0", "f", "F", "FALSE", "false", "False"];
    assert !(text in yes && text in no);
  }

  /** The spellings of a value. */
  predicate SpelledBy(text: string, v: Value) {
    match v
    case IntV(i) => SpellsSigned(text, i)
    case UintV(u) => Spells(text, u)
    case BoolV(b) =>
      text in (if b then ["1", "t", "T", "TRUE", "true", "True"] else ["0", "f", "F", "FALSE", "false", "False"])
    case StringV(s) => text == s
  }

  /** The texts that are cast to a value are exactly its spellings, if it is in the kind's range. */
  lemma CastTexts(kind: Kind, text: string, v: Value)
    ensures Cast(kind, text) == Some(v) <==> Castable(kind, v) && SpelledBy(text, v)
  {
    match v
    case IntV(i) => IntCastTexts(kind, text, i);
    case UintV(u) => UintCastTexts(kind, text, u);
    case BoolV(b) => BoolCastTexts(kind, text, b);
    case StringV(_) =>
  }

  /** What ParseInt reads apart from the range. */
  predicate Reads(text: string, i: int) {
    var signed := text != "" && (text[0] == '+' || text[0] == '-');
    var digits := if signed then text[1..] else text;
    && digits != "" && AllDigits(digits)
    && i == if signed && text[0] == '-' then -(Number(digits) as int) else Number(digits)
  }

  lemma IntTexts(text: string, i: int)
    ensures SpellsSigned(text, i) <==> Reads(text, i)
  {
    if i >= 0 {
      SpellsExactly(text, i);
    }
    if text != "" {
      SpellsExactly(text[1..], if i >= 0 then i else -i);
    }
  }

  // ---- The tree of fields ----------------------------------------------------------------

  /** Where a field's value lives. `predeclared` is whether the type is the one Go declares for
      the kind, rather than a named type of that kind. Other is any kind that is not handled. */
  datatype Place =
    | Basic(kind: Kind, predeclared: bool, cell: nat)
    | Ptr(target: Place)
    | NilPtr
    | Other

  /** An untagged field has the empty tag. */
  datatype Field =
    | Leaf(tag: string, settable: bool, place: Place)
    | Struct(tag: string, fields: seq<Field>)

  /** Miss is an error return. The cells are written by a hit only. */
  datatype Outcome = Hit(cell: nat, value: Value) | Miss | Panic

  /** The casts store int, uint and the 64-bit types; reflection panics on storing one of these
      into a field of another type. */
  predicate Stores(kind: Kind, predeclared: bool) {
    predeclared && !kind.Int32? && !kind.Uint32?
  }

  function SetPlace(p: Place, text: string): Outcome {
    match p
    case Basic(kind, predeclared, cell) =>
      var v := Cast(kind, text);
      if v.None? then Miss
      else if Stores(kind, predeclared) then Hit(cell, v.value)
      else Panic
    case Ptr(target) => SetPlace(target, text)
    case NilPtr => Miss
    case Other => Miss
  }

  /** Setting a field whose tag matched; an empty struct has no kind that can be set. */
  function SetField(f: Field, text: string): Outcome {
    if f.Leaf? && f.settable then SetPlace(f.place, text) else Miss
  }

  /** Fields that setKey does not recurse into. */
  predicate IsEnd(f: Field) {
    f.Leaf? || f.fields == []
  }

  /** setKey: an error inside a nested struct only means that the search goes on. */
  function Find(fields: seq<Field>, key: string, text: string): Outcome {
    if fields == [] then Miss
    else if IsEnd(fields[0]) then
      if fields[0].tag == key then SetField(fields[0], text) else Find(fields[1..], key, text)
    else
      var inner := Find(fields[0].fields, key, text);
      if inner.Miss? then Find(fields[1..], key, text) else inner
  }

  /** All fields that are not recursed into, in order. */
  function Ends(fields: seq<Field>): seq<Field> {
    if fields == [] then []
    else (if IsEnd(fields[0]) then [fields[0]] else Ends(fields[0].fields)) + Ends(fields[1..])
  }

  /** A hit is the work of a field tagged with the key. */
  lemma {:induction false} HitIsTagged(fields: seq<Field>, key: string, text: string)
    requires Find(fields, key, text).Hit?
    ensures exists f <- Ends(fields) :: f.tag == key && SetField(f, text) == Find(fields, key, text)
  {
    var f := fields[0];
    if IsEnd(f) && f.tag == key {
      assert f in Ends(fields);
    } else if !IsEnd(f) && !Find(f.fields, key, text).Miss? {
      HitIsTagged(f.fields, key, text);
    } else {
      HitIsTagged(fields[1..], key, text);
    }
  }

  /** What a flat list of options would do: the first field with the tag decides. */
  function FlatFind(ends: seq<Field>, key: string, text: string): Outcome {
    if ends == [] then Miss
    else if ends[0].tag == key then SetField(ends[0], text)
    else FlatFind(ends[1..], key, text)
  }

  predicate UniqueTags(ends: seq<Field>) {
    forall i, j :: 0 <= i < j < |ends| ==> ends[i].tag != ends[j].tag
  }

  lemma {:induction false} FlatAppend(a: seq<Field>, b: seq<Field>, key: string, text: string)
    ensures FlatFind(a + b, key, text)
         == if exists f <- a :: f.tag == key then FlatFind(a, key, text) else FlatFind(b, key, text)
  {
    if a == [] {
      assert a + b == b;
    } else {
      FlatAppend(a[1..], b, key, text);
      assert (a + b)[1..] == a[1..] + b;
      assert forall f <- a :: f == a[0] || f in a[1..];
    }
  }

  lemma {:induction false} FlatMiss(ends: seq<Field>, key: string, text: string)
    requires forall f <- ends :: f.tag != key
    ensures FlatFind(ends, key, text) == Miss
  {
    if ends != [] {
      FlatMiss(ends[1..], key, text);
    }
  }

  /** When no two fields carry the same tag, the search through the nested structs is a lookup
      in the flat list of their fields. */
  lemma {:induction false} NestedIsFlat(fields: seq<Field>, key: string, text: string)
    requires UniqueTags(Ends(fields))
    ensures Find(fields, key, text) == FlatFind(Ends(fields), key, text)
  {
    if fields != [] {
      var a, b := if IsEnd(fields[0]) then [fields[0]] else Ends(fields[0].fields), Ends(fields[1..]);
      UniqueParts(a, b, key);
      NestedIsFlat(fields[1..], key, text);
      FlatAppend(a, b, key, text);
      if IsEnd(fields[0]) {
        assert fields[0] in a;
      } else {
        NestedIsFlat(fields[0].fields, key, text);
        if exists f <- a :: f.tag == key {
          FlatMiss(b, key, text);
        } else {
          FlatMiss(a, key, text);
        }
      }
    }
  }

  lemma UniqueParts(a: seq<Field>, b: seq<Field>, key: string)
    requires UniqueTags(a + b)
    ensures UniqueTags(a) && UniqueTags(b)
    ensures (exists f <- a :: f.tag == key) ==> forall f <- b :: f.tag != key
  {
    assert forall i | 0 <= i < |a| :: (a + b)[i] == a[i];
    assert forall j | 0 <= j < |b| :: (a + b)[|a| + j] == b[j];
  }

  // What a search finds, case by case

  /** The place is, through any pointers, a basic one of the kind. */
  predicate EndsAt(p: Place, kind: Kind, predeclared: bool, cell: nat) {
    match p
    case Basic(k, d, c) => k == kind && d == predeclared && c == cell
    case Ptr(target) => EndsAt(target, kind, predeclared, cell)
    case NilPtr => false
    case Other => false
  }

  /** The place is, through any pointers, a nil pointer or of a kind that is not handled. */
  predicate EndsNowhere(p: Place) {
    match p
    case Basic(_, _, _) => false
    case Ptr(target) => EndsNowhere(target)
    case NilPtr => true
    case Other => true
  }

  lemma {:induction false} PlaceSets(p: Place, kind: Kind, predeclared: bool, cell: nat, text: string)
    requires EndsAt(p, kind, predeclared, cell)
    ensures SetPlace(p, text) ==
      if Cast(kind, text).None? then Miss
      else if predeclared && kind in {Int, Int64, Uint, Uint64, Bool, String} then Hit(cell, Cast(kind, text).value)
      else Panic
  {
    if p.Ptr? {
      PlaceSets(p.target, kind, predeclared, cell, text);
    }
  }

  lemma {:induction false} NowhereMisses(p: Place, text: string)
    requires EndsNowhere(p)
    ensures SetPlace(p, text) == Miss
  {
    if p.Ptr? {
      NowhereMisses(p.target, text);
    }
  }

  lemma {:induction false} FlatFinds(ends: seq<Field>, f: Field, text: string)
    requires UniqueTags(ends) && f in ends
    ensures FlatFind(ends, f.tag, text) == SetField(f, text)
  {
    if ends[0].tag != f.tag {
      assert f in ends[1..];
      FlatFinds(ends[1..], f, text);
    } else {
      var i :| 0 <= i < |ends| && ends[i] == f;
      assert i == 0;
    }
  }

  /** With unique tags, the option of a settable field whose place is basic writes the cast of its text
      into the field's cell, if its type is the one the cast has; it is refused if the text is not cast,
      and makes reflection panic otherwise. */
  lemma FindBasic(fields: seq<Field>, f: Field, kind: Kind, predeclared: bool, cell: nat, text: string)
    requires UniqueTags(Ends(fields)) && f in Ends(fields) && f.Leaf? && f.settable
    requires EndsAt(f.place, kind, predeclared, cell)
    ensures var o := Find(fields, f.tag, text);
      var stores := predeclared && kind in {Int, Int64, Uint, Uint64, Bool, String};
      && (forall v :: Castable(kind, v) && Cast(kind, text) == Some(v) && stores ==> o == Hit(cell, v))
      && (o.Miss? <==> Cast(kind, text).None?)
      && (o.Panic? <==> Cast(kind, text).Some? && !stores)
  {
    NestedIsFlat(fields, f.tag, text);
    FlatFinds(Ends(fields), f, text);
    PlaceSets(f.place, kind, predeclared, cell, text);
  }

  /** Any castable value is written when its option spells it. */
  lemma FindWrites(fields: seq<Field>, f: Field, kind: Kind, cell: nat, v: Value)
    requires UniqueTags(Ends(fields)) && f in Ends(fields) && f.Leaf? && f.settable
    requires EndsAt(f.place, kind, true, cell) && kind in {Int, Int64, Uint, Uint64, Bool, String}
    requires Castable(kind, v)
    ensures Find(fields, f.tag, Spelling(v)) == Hit(cell, v)
  {
    SpellingCasts(kind, v);
    FindBasic(fields, f, kind, true, cell, Spelling(v));
  }

  /** Options are refused whose field cannot be set, is an empty struct, or ends in a nil pointer or a
      kind that is not handled, and those that no field is tagged with. */
  lemma FindMisses(fields: seq<Field>, key: string, text: string)
    requires UniqueTags(Ends(fields))
    requires forall f <- Ends(fields) ::
      f.tag == key ==> f.Struct? || !f.settable || EndsNowhere(f.place)
    ensures Find(fields, key, text) == Miss
  {
    NestedIsFlat(fields, key, text);
    if f :| f in Ends(fields) && f.tag == key {
      FlatFinds(Ends(fields), f, text);
      if f.Leaf? && f.settable {
        NowhereMisses(f.place, text);
      }
    } else {
      FlatMiss(Ends(fields), key, text);
    }
  }

  // ---- Cells -----------------------------------------------------------------------------

  function CellOf(p: Place): Option<nat> {
    match p
    case Basic(_, _, cell) => Some(cell)
    case Ptr(target) => CellOf(target)
    case NilPtr => None
    case Other => None
  }

  predicate FieldFits(f: Field, n: nat) {
    f.Leaf? && CellOf(f.place).Some? ==> CellOf(f.place).value < n
  }

  /** All cells exist. */
  predicate Fits(fields: seq<Field>, n: nat) {
    forall f <- fields :: if IsEnd(f) then FieldFits(f, n) else Fits(f.fields, n)
  }

  lemma {:induction false} SetPlaceCell(p: Place, text: string)
    requires SetPlace(p, text).Hit?
    ensures CellOf(p) == Some(SetPlace(p, text).cell)
  {
    if p.Ptr? {
      SetPlaceCell(p.target, text);
    }
  }

  lemma {:induction false} FindFits(fields: seq<Field>, n: nat, key: string, text: string)
    requires Fits(fields, n)
    ensures Find(fields, key, text).Hit? ==> Find(fields, key, text).cell < n
  {
    if fields != [] {
      var f := fields[0];
      FindFits(fields[1..], n, key, text);
      if !IsEnd(f) {
        FindFits(f.fields, n, key, text);
      } else if SetField(f, text).Hit? {
        assert FieldFits(f, n);
        SetPlaceCell(f.place, text);
      }
    }
  }

  /** The cells after one outcome: a hit changes one, anything else changes none. */
  function Write(cells: seq<Value>, o: Outcome): seq<Value>
    requires o.Hit? ==> o.cell < |cells|
  {
    if o.Hit? then cells[o.cell := o.value] else cells
  }

  // ---- The operations --------------------------------------------------------------------

  method SetValueWithType(mem: array<Value>, settable: bool, p: Place, text: string) returns (o: Outcome)
    requires CellOf(p).Some? ==> CellOf(p).value < mem.Length
    modifies mem
    ensures o == if settable then SetPlace(p, text) else Miss
    ensures o.Hit? ==> o.cell < mem.Length
    ensures mem[..] == Write(old(mem[..]), o)
    decreases p
  {
    if !settable {
      return Miss;
    }
    match p
    case Basic(kind, predeclared, cell) =>
      var v := Cast(kind, text);
      if v.None? {
        return Miss;
      }
      if !Stores(kind, predeclared) {
        return Panic;
      }
      mem[cell] := v.value;
      return Hit(cell, v.value);
    case Ptr(target) =>
      o := SetValueWithType(mem, settable, target, text);
    case NilPtr =>
      o := Miss;
    case Other =>
      o := Miss;
  }

  method SetKey(mem: array<Value>, fields: seq<Field>, key: string, text: string) returns (o: Outcome)
    requires Fits(fields, mem.Length)
    modifies mem
    ensures o == Find(fields, key, text)
    ensures o.Hit? ==> o.cell < mem.Length
    ensures mem[..] == Write(old(mem[..]), o)
    decreases fields
  {
    var x := 0;
    while x < |fields|
      invariant 0 <= x <= |fields|
      invariant Find(fields, key, text) == Find(fields[x..], key, text)
      invariant mem[..] == old(mem[..])
    {
      var field := fields[x];
      assert fields[x..][1..] == fields[x + 1..];
      if field.Struct? && |field.fields| > 0 {
        o := SetKey(mem, field.fields, key, text);
        if !o.Miss? {
          return;
        }
      } else if field.tag == key {
        if field.Struct? {
          return Miss;
        }
        assert FieldFits(field, mem.Length);
        o := SetValueWithType(mem, field.settable, field.place, text);
        return;
      }
      x := x + 1;
    }
    o := Miss;
  }

  datatype Status = Done | Failed | Panicked

  function StatusOf(o: Outcome): Status {
    if o.Hit? then Done else if o.Miss? then Failed else Panicked
  }

  /** The options applied in some order, up to the first that does not succeed. */
  function Apply(fields: seq<Field>, opts: map<string, string>, order: seq<string>, cells: seq<Value>)
    : (r: (Status, seq<Value>))
    requires Fits(fields, |cells|) && Within(order, opts)
    ensures |r.1| == |cells|
  {
    if order == [] then (Done, cells) else
    var (status, c) := Apply(fields, opts, order[..|order| - 1], cells);
    if status != Done then (status, c) else
    var last := order[|order| - 1];
    var o := Find(fields, last, opts[last]);
    FindFits(fields, |cells|, last, opts[last]);
    (StatusOf(o), Write(c, o))
  }

  lemma ApplySnoc(fields: seq<Field>, opts: map<string, string>, order: seq<string>, k: string,
                  cells: seq<Value>)
    requires Fits(fields, |cells|) && Within(order, opts) && k in opts
    requires Apply(fields, opts, order, cells).0 == Done
    ensures var o := Find(fields, k, opts[k]);
      && (o.Hit? ==> o.cell < |cells|)
      && Within(order + [k], opts)
      && Apply(fields, opts, order + [k], cells)
         == (StatusOf(o), Write(Apply(fields, opts, order, cells).1, o))
  {
    FindFits(fields, |cells|, k, opts[k]);
    assert (order + [k])[..|order|] == order;
  }

  /** What comes after a failure changes nothing. */
  lemma {:induction false} StoppedStays(fields: seq<Field>, opts: map<string, string>,
                                        seen: seq<string>, order: seq<string>, cells: seq<Value>)
    requires Fits(fields, |cells|) && Within(order, opts) && seen <= order
    requires Within(seen, opts) && Apply(fields, opts, seen, cells).0 != Done
    ensures Apply(fields, opts, order, cells) == Apply(fields, opts, seen, cells)
    decreases |order|
  {
    if seen != order {
      StoppedStays(fields, opts, seen, order[..|order| - 1], cells);
    }
  }

  method Opts(mem: array<Value>, fields: seq<Field>, opts: map<string, string>) returns (r: Status)
    requires Fits(fields, mem.Length)
    modifies mem
    ensures exists order ::
      Ordering(opts, order) && (r, mem[..]) == Apply(fields, opts, order, old(mem[..]))
  {
    ghost var order: seq<string> := [];
    ghost var before := mem[..];
    var rest := opts.Keys;
    while rest != {}
      invariant rest <= opts.Keys && Within(order, opts) && NoRepeats(order)
      invariant forall k <- opts :: k in order <==> k !in rest
      invariant Apply(fields, opts, order, before) == (Done, mem[..])
      decreases rest
    {
      var key :| key in rest;
      ApplySnoc(fields, opts, order, key, before);
      var o := SetKey(mem, fields, key, opts[key]);
      ghost var seen := order + [key];
      if !o.Hit? {
        ghost var whole := SomeOrdering(opts, seen, rest - {key});
        StoppedStays(fields, opts, seen, whole, before);
        return StatusOf(o);
      }
      order, rest := seen, rest - {key};
    }
    r := Done;
  }

  // ---- Independence of the order -----------------------------------------------------------

  ghost predicate AllHit(fields: seq<Field>, opts: map<string, string>) {
    forall k <- opts :: Find(fields, k, opts[k]).Hit?
  }

  lemma {:induction false} DoneExactly(fields: seq<Field>, opts: map<string, string>,
                                       order: seq<string>, cells: seq<Value>)
    requires Fits(fields, |cells|) && Within(order, opts)
    ensures Apply(fields, opts, order, cells).0 == Done
       <==> forall k <- order :: Find(fields, k, opts[k]).Hit?
  {
    if order != [] {
      var front, last := order[..|order| - 1], order[|order| - 1];
      assert order == front + [last];
      DoneExactly(fields, opts, front, cells);
      if Apply(fields, opts, front, cells).0 == Done {
        ApplySnoc(fields, opts, front, last, cells);
      } else {
        StoppedStays(fields, opts, front, order, cells);
      }
    }
  }

  /** Whether all options are set does not depend on the order of the iteration. */
  lemma SuccessExactly(fields: seq<Field>, opts: map<string, string>, order: seq<string>, cells: seq<Value>)
    requires Fits(fields, |cells|) && Ordering(opts, order)
    ensures Apply(fields, opts, order, cells).0 == Done <==> AllHit(fields, opts)
  {
    DoneExactly(fields, opts, order, cells);
  }

  /** A merge ends at the first option that is not set: as a failure if it cannot be, as a panic if it
      brings the process down; and what the earlier ones wrote stays. */
  lemma StopsThere(fields: seq<Field>, opts: map<string, string>, order: seq<string>, cells: seq<Value>, i: nat)
    requires Fits(fields, |cells|) && Within(order, opts) && i < |order|
    requires forall j | 0 <= j < i :: Find(fields, order[j], opts[order[j]]).Hit?
    requires !Find(fields, order[i], opts[order[i]]).Hit?
    ensures Apply(fields, opts, order, cells).1 == Apply(fields, opts, order[..i], cells).1
    ensures Apply(fields, opts, order, cells).0.Failed? <==> Find(fields, order[i], opts[order[i]]).Miss?
    ensures Apply(fields, opts, order, cells).0.Panicked? <==> Find(fields, order[i], opts[order[i]]).Panic?
  {
    DoneExactly(fields, opts, order[..i], cells);
    ApplySnoc(fields, opts, order[..i], order[i], cells);
    assert order[..i] + [order[i]] == order[..i + 1];
    StoppedStays(fields, opts, order[..i + 1], order, cells);
  }

  /** Options that reach the same cell put the same value there. */
  ghost predicate Agree(fields: seq<Field>, opts: map<string, string>) {
    forall j, k | j in opts && k in opts ::
      var a, b := Find(fields, j, opts[j]), Find(fields, k, opts[k]);
      a.Hit? && b.Hit? && a.cell == b.cell ==> a.value == b.value
  }

  ghost predicate Reaches(fields: seq<Field>, opts: map<string, string>, k: string, cell: nat) {
    && k in opts && Find(fields, k, opts[k]).Hit?
    && Find(fields, k, opts[k]).cell == cell
  }

  /** The value in a cell once all options are set, with no order in it. */
  ghost function FinalCell(fields: seq<Field>, opts: map<string, string>, cells: seq<Value>, cell: nat): Value
    requires cell < |cells|
  {
    if exists k :: Reaches(fields, opts, k, cell) then
      var k :| Reaches(fields, opts, k, cell); Find(fields, k, opts[k]).value
    else cells[cell]
  }

  ghost function Final(fields: seq<Field>, opts: map<string, string>, cells: seq<Value>): seq<Value> {
    seq(|cells|, cell requires 0 <= cell < |cells| => FinalCell(fields, opts, cells, cell))
  }

  lemma {:induction false} CellAfter(fields: seq<Field>, opts: map<string, string>, order: seq<string>,
                                     cells: seq<Value>, cell: nat)
    requires Fits(fields, |cells|) && Within(order, opts) && cell < |cells|
    requires AllHit(fields, opts) && Agree(fields, opts)
    ensures var c := Apply(fields, opts, order, cells).1;
      && (forall k <- order :: Reaches(fields, opts, k, cell) ==>
            c[cell] == Find(fields, k, opts[k]).value)
      && ((forall k <- order :: !Reaches(fields, opts, k, cell)) ==> c[cell] == cells[cell])
  {
    DoneExactly(fields, opts, order, cells);
    if order != [] {
      var front, last := order[..|order| - 1], order[|order| - 1];
      assert order == front + [last];
      assert forall k <- front :: k in order;
      CellAfter(fields, opts, front, cells, cell);
      DoneExactly(fields, opts, front, cells);
      ApplySnoc(fields, opts, front, last, cells);
    }
  }

  /** The result in any order, when options that reach the same cell agree. */
  lemma ApplyIsFinal(fields: seq<Field>, opts: map<string, string>, order: seq<string>, cells: seq<Value>)
    requires Fits(fields, |cells|) && AllHit(fields, opts) && Agree(fields, opts)
    requires Ordering(opts, order)
    ensures Apply(fields, opts, order, cells) == (Done, Final(fields, opts, cells))
  {
    forall cell: nat | cell < |cells|
      ensures Apply(fields, opts, order, cells).1[cell] == FinalCell(fields, opts, cells, cell)
    {
      CellAfter(fields, opts, order, cells, cell);
      assert forall k | Reaches(fields, opts, k, cell) :: k in order;
      assert forall k <- order :: k in opts;
    }
    SuccessExactly(fields, opts, order, cells);
    assert Apply(fields, opts, order, cells).1 == Final(fields, opts, cells);
  }

  /** Whatever the order, a cell that some option reaches holds, once all are set, what one of them
      brings. */
  lemma {:induction false} CellIsBrought(fields: seq<Field>, opts: map<string, string>, order: seq<string>,
                                         cells: seq<Value>, cell: nat)
    requires Fits(fields, |cells|) && Within(order, opts) && cell < |cells|
    requires Apply(fields, opts, order, cells).0 == Done && exists k <- order :: Reaches(fields, opts, k, cell)
    ensures exists k <- order ::
      Reaches(fields, opts, k, cell)
      && Apply(fields, opts, order, cells).1[cell] == Find(fields, k, opts[k]).value
  {
    var front, last := order[..|order| - 1], order[|order| - 1];
    assert order == front + [last];
    if Apply(fields, opts, front, cells).0 != Done {
      StoppedStays(fields, opts, front, order, cells);
    }
    ApplySnoc(fields, opts, front, last, cells);
    if Reaches(fields, opts, last, cell) {
      assert last in order;
    } else {
      CellIsBrought(fields, opts, front, cells, cell);
    }
  }

  /** The settable field f ends, through any pointers, in a basic place. */
  ghost predicate Ending(fields: seq<Field>, f: Field, kind: Kind, predeclared: bool, cell: nat) {
    f in Ends(fields) && f.Leaf? && f.settable && EndsAt(f.place, kind, predeclared, cell)
  }

  /** No option brings another value to the cell of option k. */
  ghost predicate Undisputed(fields: seq<Field>, opts: map<string, string>, k: string)
    requires k in opts
  {
    var o := Find(fields, k, opts[k]);
    o.Hit? ==> forall j <- opts :: Reaches(fields, opts, j, o.cell) ==> Find(fields, j, opts[j]) == o
  }

  /** After a merge that is Done, in whatever order, the cell of a field whose option is given holds the
      cast of that option, unless another option brings another value to the same cell. */
  lemma MergedHolds(fields: seq<Field>, opts: map<string, string>, order: seq<string>, cells: seq<Value>,
                    f: Field, kind: Kind, predeclared: bool, cell: nat)
    requires Fits(fields, |cells|) && Ordering(opts, order) && Apply(fields, opts, order, cells).0 == Done
    requires UniqueTags(Ends(fields)) && Ending(fields, f, kind, predeclared, cell)
    requires f.tag in opts && Undisputed(fields, opts, f.tag)
    ensures cell < |cells| && Some(Apply(fields, opts, order, cells).1[cell]) == Cast(kind, opts[f.tag])
  {
    DoneHits(fields, opts, order, cells, f.tag);
    HitIsCast(fields, f, kind, predeclared, cell, opts[f.tag]);
    HoldsOwn(fields, opts, order, cells, f.tag);
  }

  lemma DoneHits(fields: seq<Field>, opts: map<string, string>, order: seq<string>, cells: seq<Value>, k: string)
    requires Fits(fields, |cells|) && Ordering(opts, order) && Apply(fields, opts, order, cells).0 == Done
    requires k in opts
    ensures Find(fields, k, opts[k]).Hit? && Find(fields, k, opts[k]).cell < |cells|
  {
    SuccessExactly(fields, opts, order, cells);
    FindFits(fields, |cells|, k, opts[k]);
  }

  lemma HitIsCast(fields: seq<Field>, f: Field, kind: Kind, predeclared: bool, cell: nat, text: string)
    requires UniqueTags(Ends(fields)) && Ending(fields, f, kind, predeclared, cell)
    requires Find(fields, f.tag, text).Hit?
    ensures var o := Find(fields, f.tag, text); o.cell == cell && Some(o.value) == Cast(kind, text)
  {
    FindBasic(fields, f, kind, predeclared, cell, text);
    CastIsCastable(kind, text);
  }

  lemma HoldsOwn(fields: seq<Field>, opts: map<string, string>, order: seq<string>, cells: seq<Value>, k: string)
    requires Fits(fields, |cells|) && Ordering(opts, order) && Apply(fields, opts, order, cells).0 == Done
    requires k in opts && Find(fields, k, opts[k]).Hit? && Find(fields, k, opts[k]).cell < |cells|
    requires Undisputed(fields, opts, k)
    ensures var o := Find(fields, k, opts[k]); Apply(fields, opts, order, cells).1[o.cell] == o.value
  {
    var cell := Find(fields, k, opts[k]).cell;
    assert k in order && Reaches(fields, opts, k, cell);
    CellIsBrought(fields, opts, order, cells, cell);
  }

  /** An order that ends with a given key leaves that key's value. */
  lemma LastWins(fields: seq<Field>, opts: map<string, string>, k: string, cells: seq<Value>)
    returns (order: seq<string>)
    requires Fits(fields, |cells|) && AllHit(fields, opts) && k in opts
    ensures Ordering(opts, order) && Find(fields, k, opts[k]).cell < |cells|
    ensures Apply(fields, opts, order, cells).1[Find(fields, k, opts[k]).cell]
         == Find(fields, k, opts[k]).value
  {
    var others := opts - {k};
    var front := SomeOrdering(others, [], others.Keys);
    order := front + [k];
    DoneExactly(fields, opts, front, cells);
    ApplySnoc(fields, opts, front, k, cells);
  }

  /** When all options can be set, every order gives the same struct exactly when options that
      reach the same cell agree on its value. */
  lemma OrderOfHits(fields: seq<Field>, opts: map<string, string>, cells: seq<Value>)
    requires Fits(fields, |cells|) && AllHit(fields, opts)
    ensures Agree(fields, opts) <==> Orderless(fields, opts, cells)
  {
    if Agree(fields, opts) {
      forall a, b | Ordering(opts, a) && Ordering(opts, b)
        ensures Apply(fields, opts, a, cells) == Apply(fields, opts, b, cells)
      {
        ApplyIsFinal(fields, opts, a, cells);
        ApplyIsFinal(fields, opts, b, cells);
      }
    } else {
      var j, k :| j in opts && k in opts
        && Find(fields, j, opts[j]).cell == Find(fields, k, opts[k]).cell
        && Find(fields, j, opts[j]).value != Find(fields, k, opts[k]).value;
      var a := LastWins(fields, opts, j, cells);
      var b := LastWins(fields, opts, k, cells);
      assert Apply(fields, opts, a, cells) != Apply(fields, opts, b, cells);
    }
  }

  /** Every order of the iteration gives the same status and the same struct. */
  ghost predicate Orderless(fields: seq<Field>, opts: map<string, string>, cells: seq<Value>)
    requires Fits(fields, |cells|)
  {
    forall a, b | Ordering(opts, a) && Ordering(opts, b) ::
      Apply(fields, opts, a, cells) == Apply(fields, opts, b, cells)
  }

  // When some option cannot be set

  /** All options that cannot be set end the iteration in the same way. */
  ghost predicate OneEnding(fields: seq<Field>, opts: map<string, string>) {
    forall j, k | j in opts && k in opts ::
      var a, b := Find(fields, j, opts[j]), Find(fields, k, opts[k]);
      !a.Hit? && !b.Hit? ==> a == b
  }

  /** The option changes nothing: it cannot be set, or its cell has the value already. */
  predicate Idle(fields: seq<Field>, opts: map<string, string>, cells: seq<Value>, k: string)
    requires Fits(fields, |cells|) && k in opts
  {
    var o := Find(fields, k, opts[k]);
    FindFits(fields, |cells|, k, opts[k]);
    o.Hit? ==> cells[o.cell] == o.value
  }

  ghost predicate AllIdle(fields: seq<Field>, opts: map<string, string>, cells: seq<Value>)
    requires Fits(fields, |cells|)
  {
    forall k <- opts :: Idle(fields, opts, cells, k)
  }

  lemma {:induction false} IdleApply(fields: seq<Field>, opts: map<string, string>, order: seq<string>,
                                     cells: seq<Value>, ending: Outcome)
    requires Fits(fields, |cells|) && Within(order, opts) && AllIdle(fields, opts, cells) && !ending.Hit?
    requires forall k <- opts :: !Find(fields, k, opts[k]).Hit? ==> Find(fields, k, opts[k]) == ending
    ensures Apply(fields, opts, order, cells).1 == cells
    ensures Apply(fields, opts, order, cells).0 in {Done, StatusOf(ending)}
  {
    if order != [] {
      var front, last := order[..|order| - 1], order[|order| - 1];
      assert order == front + [last];
      IdleApply(fields, opts, front, cells, ending);
      if Apply(fields, opts, front, cells).0 == Done {
        ApplySnoc(fields, opts, front, last, cells);
        assert Idle(fields, opts, cells, last);
      } else {
        StoppedStays(fields, opts, front, order, cells);
      }
    }
  }

  /** An order that begins with one option that cannot be set ends there. */
  lemma StopsFirst(fields: seq<Field>, opts: map<string, string>, k: string, cells: seq<Value>)
    returns (order: seq<string>)
    requires Fits(fields, |cells|) && k in opts && !Find(fields, k, opts[k]).Hit?
    ensures Ordering(opts, order)
    ensures Apply(fields, opts, order, cells) == (StatusOf(Find(fields, k, opts[k])), cells)
  {
    order := SomeOrdering(opts, [k], opts.Keys - {k});
    assert [] + [k] == [k];
    ApplySnoc(fields, opts, [], k, cells);
    StoppedStays(fields, opts, [k], order, cells);
  }

  /** An order that begins with one option that can be set and one that cannot. */
  lemma StopsSecond(fields: seq<Field>, opts: map<string, string>, j: string, k: string, cells: seq<Value>)
    returns (order: seq<string>)
    requires Fits(fields, |cells|) && j in opts && k in opts
    requires Find(fields, j, opts[j]).Hit? && !Find(fields, k, opts[k]).Hit?
    ensures Find(fields, j, opts[j]).cell < |cells| && Ordering(opts, order)
    ensures Apply(fields, opts, order, cells).1 == Write(cells, Find(fields, j, opts[j]))
  {
    var first, both := [] + [j], [] + [j] + [k];
    ApplySnoc(fields, opts, [], j, cells);
    ApplySnoc(fields, opts, first, k, cells);
    assert both[0] == j && both[1] == k && j != k;
    order := SomeOrdering(opts, both, opts.Keys - {j, k});
    StoppedStays(fields, opts, both, order, cells);
  }

  /** When some option cannot be set, every order gives the same result exactly when all such options
      end alike and no other option changes anything: setKey writes in place before a later one
      fails. */
  lemma OrderOfMisses(fields: seq<Field>, opts: map<string, string>, cells: seq<Value>)
    requires Fits(fields, |cells|) && !AllHit(fields, opts)
    ensures OneEnding(fields, opts) && AllIdle(fields, opts, cells) <==> Orderless(fields, opts, cells)
  {
    var m :| m in opts && !Find(fields, m, opts[m]).Hit?;
    var ending := Find(fields, m, opts[m]);
    if !OneEnding(fields, opts) {
      var j, k :| j in opts && k in opts && !Find(fields, j, opts[j]).Hit?
        && !Find(fields, k, opts[k]).Hit? && Find(fields, j, opts[j]) != Find(fields, k, opts[k]);
      var a := StopsFirst(fields, opts, j, cells);
      var b := StopsFirst(fields, opts, k, cells);
      assert Apply(fields, opts, a, cells) != Apply(fields, opts, b, cells);
    } else if !AllIdle(fields, opts, cells) {
      var j :| j in opts && !Idle(fields, opts, cells, j);
      var a := StopsFirst(fields, opts, m, cells);
      var b := StopsSecond(fields, opts, j, m, cells);
      assert Apply(fields, opts, a, cells) != Apply(fields, opts, b, cells);
    } else {
      forall a, b | Ordering(opts, a) && Ordering(opts, b)
        ensures Apply(fields, opts, a, cells) == Apply(fields, opts, b, cells)
      {
        MissEnds(fields, opts, a, cells, ending);
        MissEnds(fields, opts, b, cells, ending);
      }
    }
  }

  lemma MissEnds(fields: seq<Field>, opts: map<string, string>, order: seq<string>, cells: seq<Value>,
                 ending: Outcome)
    requires Fits(fields, |cells|) && Ordering(opts, order) && !AllHit(fields, opts)
    requires AllIdle(fields, opts, cells) && !ending.Hit?
    requires forall k <- opts :: !Find(fields, k, opts[k]).Hit? ==> Find(fields, k, opts[k]) == ending
    ensures Apply(fields, opts, order, cells) == (StatusOf(ending), cells)
  {
    IdleApply(fields, opts, order, cells, ending);
    SuccessExactly(fields, opts, order, cells);
  }

  /** The result does not depend on the order of the iteration exactly when either all options can be
      set and those that reach the same cell agree on its value, or some cannot, all of these end
      alike, and no other changes anything. */
  lemma OrderIrrelevantExactly(fields: seq<Field>, opts: map<string, string>, cells: seq<Value>)
    requires Fits(fields, |cells|)
    ensures Orderless(fields, opts, cells) <==>
      if AllHit(fields, opts) then Agree(fields, opts)
      else OneEnding(fields, opts) && AllIdle(fields, opts, cells)
  {
    if AllHit(fields, opts) {
      OrderOfHits(fields, opts, cells);
    } else {
      OrderOfMisses(fields, opts, cells);
    }
  }

  /** No two fields share a cell. */
  ghost predicate Unshared(ends: seq<Field>) {
    forall i, j | 0 <= i < j < |ends| && ends[i].Leaf? && ends[j].Leaf? && CellOf(ends[i].place).Some? ::
      CellOf(ends[i].place) != CellOf(ends[j].place)
  }

  /** Without shared cells options always agree. */
  lemma UnsharedAgree(fields: seq<Field>, opts: map<string, string>)
    requires Unshared(Ends(fields))
    ensures Agree(fields, opts)
  {
    forall j, k | j in opts && k in opts && Find(fields, j, opts[j]).Hit? && Find(fields, k, opts[k]).Hit?
               && Find(fields, j, opts[j]).cell == Find(fields, k, opts[k]).cell
      ensures j == k
    {
      HitIsTagged(fields, j, opts[j]);
      HitIsTagged(fields, k, opts[k]);
      var f :| f in Ends(fields) && f.tag == j && SetField(f, opts[j]) == Find(fields, j, opts[j]);
      var g :| g in Ends(fields) && g.tag == k && SetField(g, opts[k]) == Find(fields, k, opts[k]);
      SetPlaceCell(f.place, opts[j]);
      SetPlaceCell(g.place, opts[k]);
      assert CellOf(f.place) == CellOf(g.place);
    }
  }
}
