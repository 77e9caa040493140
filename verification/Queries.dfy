/** Compiling the conditions of a profile into a database query, and what the
    query then selects. Reading a number and matching a pattern are left open. */
module Queries {
  import opened Wrappers
  import opened Strings
  import Enrichment

  datatype Value = Num(n: real) | Text(s: string)

  // Unknown stands for any other operation; it compiles to an operator without
  // a name.
  datatype Operation = Equals | Gt | Lt | In | Regex | Unknown

  datatype Operand = One(value: Value) | Many(values: seq<Value>)

  datatype Condition = Condition(field: string, operation: Operation, operand: Operand, negate: bool)

  datatype Pattern = Pattern(text: string, options: Option<string>)

  datatype Test =
    | Eq(operand: Operand) | Ne(operand: Operand)
    | Above(n: real) | AtMost(n: real) | Under(n: real) | AtLeast(n: real)
    | AmongTest(values: seq<Value>) | NotAmong(values: seq<Value>)
    | Like(pattern: Pattern) | NotLike(pattern: Pattern)
    | Nameless(operand: Operand)

  datatype Filter = Filter(field: string, test: Test)

  datatype Query = Query(address: string, mib: string, filters: seq<Filter>)

  datatype Document = Document(address: string, groupKeyHash: string, fields: map<string, Value>)

  // How numbers are read from text, and when a text matches a pattern.
  datatype Readers = Readers(number: string -> Option<real>, matches: (Pattern, string) -> bool)

  // ---- Compiling ----

  function ToFloat(readers: Readers, value: Value): Option<real> {
    match value
    case Num(n) => Some(n)
    case Text(s) => readers.number(s)
  }

  function ToFloats(readers: Readers, values: seq<Value>): (floats: seq<Value>)
    ensures |floats| == |values|
  {
    seq(|values|, i requires 0 <= i < |values| =>
      if ToFloat(readers, values[i]).Some? then Num(ToFloat(readers, values[i]).value) else values[i])
  }

  // A text where a list is expected is gone through letter by letter.
  function Letters(s: string): (letters: seq<Value>)
    ensures |letters| == |s|
  {
    seq(|s|, i requires 0 <= i < |s| => Text([s[i]]))
  }

  function StripSlashes(s: string): string {
    StripRight(StripLeft(s))
  }

  function StripLeft(s: string): string {
    if s != "" && s[0] == '/' then StripLeft(s[1..]) else s
  }

  function StripRight(s: string): string {
    if s != "" && s[|s| - 1] == '/' then StripRight(s[..|s| - 1]) else s
  }

  function PrepareRegex(value: string): Pattern {
    var parts := Split(StripSlashes(value), '/');
    Pattern(parts[0], if |parts| > 1 then Some(parts[1]) else None)
  }

  // The test of one condition, unless its operand does not fit its operation.
  function TestOf(readers: Readers, c: Condition): Option<Test> {
    match (c.operation, c.operand)
    case (Equals, operand) => Some(if c.negate then Ne(operand) else Eq(operand))
    case (Unknown, operand) => Some(Nameless(operand))
    case (Gt, One(v)) =>
      var n := ToFloat(readers, v);
      if n.None? then None else Some(if c.negate then AtMost(n.value) else Above(n.value))
    case (Lt, One(v)) =>
      var n := ToFloat(readers, v);
      if n.None? then None else Some(if c.negate then AtLeast(n.value) else Under(n.value))
    case (In, Many(vs)) => Some(if c.negate then NotAmong(ToFloats(readers, vs)) else AmongTest(ToFloats(readers, vs)))
    case (In, One(Text(s))) => Some(if c.negate then NotAmong(ToFloats(readers, Letters(s)))
                                    else AmongTest(ToFloats(readers, Letters(s))))
    case (Regex, One(Text(s))) => Some(if c.negate then NotLike(PrepareRegex(s)) else Like(PrepareRegex(s)))
    case _ => None
  }

  function FieldKey(c: Condition): string {
    Enrichment.HashKey(c.field)
  }

  predicate HasMib(c: Condition) {
    |Split(FieldKey(c), '|')| >= 2
  }

  predicate Compiles(readers: Readers, conditions: seq<Condition>) {
    && conditions != [] && HasMib(conditions[|conditions| - 1])
    && forall i :: 0 <= i < |conditions| ==> TestOf(readers, conditions[i]).Some?
  }

  function Mib(conditions: seq<Condition>): string
    requires conditions != []
  {
    Split(FieldKey(conditions[|conditions| - 1]), '|')[0]
  }

  ghost predicate AsCompiled(readers: Readers, conditions: seq<Condition>, address: string, query: Query) {
    && conditions != [] && query.address == address && query.mib == Mib(conditions) && |query.filters| == |conditions|
    && forall i :: 0 <= i < |conditions| ==>
         query.filters[i].field == FieldKey(conditions[i])
             && Some(query.filters[i].test) == TestOf(readers, conditions[i])
  }

  // A query, or an error: no condition, an operand that does not fit, or a last
  // field without a MIB.
  method CreateQuery(readers: Readers, conditions: seq<Condition>, address: string) returns (query: Option<Query>)
    ensures query.Some? <==> Compiles(readers, conditions)
    ensures query.Some? ==> AsCompiled(readers, conditions, address, query.value)
  {
    hide TestOf, FieldKey, Split;
    var filters: seq<Filter> := [];
    for i := 0 to |conditions|
      invariant |filters| == i
      invariant forall j :: 0 <= j < i ==>
                filters[j].field == FieldKey(conditions[j]) && Some(filters[j].test) == TestOf(readers, conditions[j])
    {
      var test := TestOf(readers, conditions[i]);
      if test.None? {
        return None;
      }
      filters := filters + [Filter(FieldKey(conditions[i]), test.value)];
    }
    if conditions == [] {
      return None;
    }
    var components := Split(FieldKey(conditions[|conditions| - 1]), '|');
    if |components| < 2 {
      return None;
    }
    query := Some(Query(address, components[0], filters));
  }

  // ---- What the database selects ----

  function FieldOf(document: Document, field: string): Option<Value> {
    if field in document.fields then Some(document.fields[field]) else None
  }

  // Comparisons select numbers only; a negated test also selects documents
  // without the field. A field's value is a number or a text, so it equals no
  // list, and no document written under a nameless operator.
  predicate Passes(readers: Readers, test: Test, value: Option<Value>) {
    match test
    case Eq(operand) => value.Some? && operand == One(value.value)
    case Ne(operand) => !(value.Some? && operand == One(value.value))
    case Nameless(_) => false
    case Above(n) => value.Some? && value.value.Num? && value.value.n > n
    case AtMost(n) => value.Some? && value.value.Num? && value.value.n <= n
    case Under(n) => value.Some? && value.value.Num? && value.value.n < n
    case AtLeast(n) => value.Some? && value.value.Num? && value.value.n >= n
    case AmongTest(vs) => value.Some? && value.value in vs
    case NotAmong(vs) => !(value.Some? && value.value in vs)
    case Like(p) => value.Some? && value.value.Text? && readers.matches(p, value.value.s)
    case NotLike(p) => !(value.Some? && value.value.Text? && readers.matches(p, value.value.s))
  }

  predicate Selects(readers: Readers, query: Query, document: Document) {
    && document.address == query.address && query.mib <= document.groupKeyHash
    && forall i :: 0 <= i < |query.filters| ==>
        Passes(readers, query.filters[i].test, FieldOf(document, query.filters[i].field))
  }

  // ---- What the conditions mean ----

  // A condition without its negation.
  predicate Plain(readers: Readers, c: Condition, value: Option<Value>) {
    && value.Some?
    && match (c.operation, c.operand)
       case (Equals, operand) => operand == One(value.value)
       case (Gt, One(v)) => value.value.Num? && ToFloat(readers, v).Some? && value.value.n > ToFloat(readers, v).value
       case (Lt, One(v)) => value.value.Num? && ToFloat(readers, v).Some? && value.value.n < ToFloat(readers, v).value
       case (In, Many(vs)) => Listed(readers, vs, value.value)
       case (In, One(Text(s))) => Listed(readers, Letters(s), value.value)
       case (Regex, One(Text(s))) => value.value.Text? && readers.matches(PrepareRegex(s), value.value.s)
       case _ => false
  }

  predicate Listed(readers: Readers, values: seq<Value>, value: Value) {
    exists i :: 0 <= i < |values| && value == Read(readers, values[i])
  }

  // A listed value that reads as a number stands for that number.
  function Read(readers: Readers, value: Value): Value {
    if ToFloat(readers, value).Some? then Num(ToFloat(readers, value).value) else value
  }

  predicate Meant(readers: Readers, c: Condition, value: Option<Value>) {
    c.negate != Plain(readers, c, value)
  }

  // A negated comparison of a field that is missing or not a number, or the
  // negation of an unknown operation, which selects nothing either way.
  predicate Incomparable(c: Condition, value: Option<Value>) {
    && c.negate
    && (c.operation.Unknown? || ((c.operation.Gt? || c.operation.Lt?) && !(value.Some? && value.value.Num?)))
  }

  // A compiled test agrees with its condition exactly when it is not a negated
  // comparison of something that cannot be compared.
  lemma TestAgreesExactly(readers: Readers, c: Condition, value: Option<Value>)
    requires TestOf(readers, c).Some?
    ensures (Passes(readers, TestOf(readers, c).value, value) <==> Meant(readers, c, value)) <==>
            !Incomparable(c, value)
    ensures Incomparable(c, value) ==> !Passes(readers, TestOf(readers, c).value, value)
  {
    hide PrepareRegex, Letters, Listed;
    if c.operation.In? && value.Some? {
      match c.operand
      case Many(vs) => AmongIsListed(readers, vs, value.value);
      case One(Text(s)) => AmongIsListed(readers, Letters(s), value.value);
    }
  }

  // For example: "not above 5" means a document without the field, and does not
  // select it.
  lemma MissingIsNotSelected(readers: Readers)
    ensures var c := Condition("IF-MIB.ifMtu", Gt, One(Num(5.0)), true);
            && TestOf(readers, c) == Some(AtMost(5.0))
            && Meant(readers, c, None) && !Passes(readers, AtMost(5.0), None)
  {
    hide PrepareRegex, Letters, Listed;
  }

  lemma AmongIsListed(readers: Readers, values: seq<Value>, value: Value)
    ensures value in ToFloats(readers, values) <==> Listed(readers, values, value)
  {
    assert forall i :: 0 <= i < |values| ==> ToFloats(readers, values)[i] == Read(readers, values[i]);
  }

  // A document is selected exactly when it is one of this address, its group
  // belongs to the last condition's MIB, and every condition holds of it as
  // meant and is not a negated comparison of something incomparable.
  lemma QuerySelectsExactly(readers: Readers, conditions: seq<Condition>, address: string, query: Query,
                            document: Document)
    requires Compiles(readers, conditions) && AsCompiled(readers, conditions, address, query)
    ensures Selects(readers, query, document) <==>
            && document.address == address && Mib(conditions) <= document.groupKeyHash
            && forall i :: 0 <= i < |conditions| ==>
                 var value := FieldOf(document, FieldKey(conditions[i]));
                 Meant(readers, conditions[i], value) && !Incomparable(conditions[i], value)
  {
    hide TestOf, Passes, Meant, Incomparable, FieldKey, Split, Mib, HasMib;
    forall i | 0 <= i < |conditions|
      ensures Passes(readers, query.filters[i].test, FieldOf(document, query.filters[i].field)) <==>
              var value := FieldOf(document, FieldKey(conditions[i]));
              Meant(readers, conditions[i], value) && !Incomparable(conditions[i], value)
    {
      TestAgreesExactly(readers, conditions[i], FieldOf(document, FieldKey(conditions[i])));
    }
  }

  // ---- What fields and patterns are ----

  predicate IsBreak(c: char) {
    c == '.' || c == '|'
  }

  // The MIB of a query is what comes before the first dot or bar of the last
  // condition's field, and a field without either has none.
  lemma MibIsBeforeBreak(conditions: seq<Condition>, i: nat)
    requires conditions != []
    requires var field := conditions[|conditions| - 1].field;
             i <= |field| && (i < |field| ==> IsBreak(field[i])) && forall j :: 0 <= j < i ==> !IsBreak(field[j])
    ensures var last := conditions[|conditions| - 1];
            (HasMib(last) <==> i < |last.field|) && Mib(conditions) == last.field[..i]
  {
    hide Split;
    var last := conditions[|conditions| - 1];
    var key := FieldKey(last);
    assert key[..i] == last.field[..i];
    if i < |key| {
      assert key == key[..i] + ['|'] + key[i + 1..];
      SplitPrepend(key[..i], '|', key[i + 1..]);
    } else {
      SplitFree(key, '|');
      assert last.field[..i] == last.field == key;
    }
  }

  lemma {:induction false} StripLeftIs(n: nat, s: string)
    requires s == "" || s[0] != '/'
    ensures StripLeft(seq(n, _ => '/') + s) == s
  {
    var slashes := seq(n, _ => '/');
    if n > 0 {
      StripLeftIs(n - 1, s);
      assert (slashes + s)[1..] == seq(n - 1, _ => '/') + s;
    } else {
      assert slashes + s == s;
    }
  }

  lemma {:induction false} StripRightIs(s: string, n: nat)
    requires s == "" || s[|s| - 1] != '/'
    ensures StripRight(s + seq(n, _ => '/')) == s
  {
    var slashes := seq(n, _ => '/');
    if n > 0 {
      StripRightIs(s, n - 1);
      assert (s + slashes)[..|s + slashes| - 1] == s + seq(n - 1, _ => '/');
    } else {
      assert s + slashes == s;
    }
  }

  // Comparisons take a number, or a text that reads as one; a list is wanted by
  // the list operation, which takes a text letter by letter; a pattern is a text.
  predicate OperandFits(readers: Readers, c: Condition) {
    match c.operation
    case Gt => c.operand.One? && (c.operand.value.Num? || readers.number(c.operand.value.s).Some?)
    case Lt => c.operand.One? && (c.operand.value.Num? || readers.number(c.operand.value.s).Some?)
    case In => c.operand.Many? || c.operand.value.Text?
    case Regex => c.operand.One? && c.operand.value.Text?
    case Equals => true
    case Unknown => true
  }

  // A query comes out exactly when there is a condition, every operand fits and
  // the last field has a dot or a bar.
  lemma CompilesExactly(readers: Readers, conditions: seq<Condition>)
    ensures Compiles(readers, conditions) <==>
            && conditions != [] && (exists c :: c in conditions[|conditions| - 1].field && IsBreak(c))
            && forall i :: 0 <= i < |conditions| ==> OperandFits(readers, conditions[i])
  {
    hide Split, Letters, PrepareRegex, ToFloats;
    if conditions != [] {
      var field := conditions[|conditions| - 1].field;
      var i := FirstBreak(field);
      MibIsBeforeBreak(conditions, i);
    }
  }

  lemma {:induction false} FirstBreak(field: string) returns (i: nat)
    ensures i <= |field| && (i < |field| ==> IsBreak(field[i])) && forall j :: 0 <= j < i ==> !IsBreak(field[j])
    ensures i < |field| <==> exists c :: c in field && IsBreak(c)
  {
    if field == "" || IsBreak(field[0]) {
      i := 0;
    } else {
      i := FirstBreak(field[1..]);
      i := i + 1;
    }
  }

  // A pattern written with any slashes around it, and options after one more
  // slash when there are any: "/p/o", "/p/", "p".
  lemma SlashedPattern(before: nat, text: string, options: Option<string>, after: nat)
    requires text != "" && Free(text, '/') && (options.Some? ==> options.value != "" && Free(options.value, '/'))
    ensures var inner := if options.Some? then text + "/" + options.value else text;
            PrepareRegex(seq(before, _ => '/') + inner + seq(after, _ => '/')) == Pattern(text, options)
  {
    hide Split, StripLeft, StripRight;
    var inner := if options.Some? then text + "/" + options.value else text;
    assert inner[0] == text[0] && text[0] in text;
    assert options.Some? ==> inner[|inner| - 1] == options.value[|options.value| - 1];
    assert options.Some? ==> options.value[|options.value| - 1] in options.value;
    assert options.None? ==> inner[|inner| - 1] in text;
    assert seq(before, _ => '/') + inner + seq(after, _ => '/') ==
             seq(before, _ => '/') + (inner + seq(after, _ => '/'));
    StripLeftIs(before, inner + seq(after, _ => '/'));
    StripRightIs(inner, after);
    if options.Some? {
      assert inner == text + ['/'] + options.value;
      SplitPrepend(text, '/', options.value);
      SplitFree(options.value, '/');
    } else {
      SplitFree(text, '/');
    }
  }
}
