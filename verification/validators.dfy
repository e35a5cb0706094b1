/** The product field validation rules and the stock-level classifier
    (src/utils/validators.ts). */
module Validators {
  import opened JsValues

  datatype ValidationError = ValidationError(field: string, message: string)

  /** The fields that have rules; every other field is accepted as it is. */
  const RuledFields: set<string> := {"name", "price", "quantity", "category"}

  /** `value === null || value === undefined || value === ''` does not hold. */
  predicate Present(v: Value) {
    v != Null && v != Undefined && v != Str("")
  }

  function Fail(field: string, message: string): Option<ValidationError> {
    Some(ValidationError(field, message))
  }

  /** The `name` case: required string, 2 to 100 characters. */
  function ValidateName(value: Value): (r: Option<ValidationError>)
    ensures r.Some? ==> r.value.field == "name"
    ensures r == None <==> value.Str? && 2 <= |value.s| <= 100
  {
    if !Truthy(value) || !value.Str? then Fail("name", "Name is required")
    else if |value.s| < 2 then Fail("name", "Name must be at least 2 characters")
    else if |value.s| > 100 then Fail("name", "Name cannot exceed 100 characters")
    else None
  }

  /** The `price` case: present, a number, from 0 to 1,000,000. */
  function ValidatePrice(h: Host, value: Value): (r: Option<ValidationError>)
    ensures r.Some? ==> r.value.field == "price"
    ensures r == None <==> Present(value) && ToNumber(h, value).Fin? && 0.0 <= ToNumber(h, value).r <= 1000000.0
  {
    if !Present(value) then Fail("price", "Price is required")
    else
      var n := ToNumber(h, value);
      if n == NaN then Fail("price", "Price must be a number")
      else if Less(n, Fin(0.0)) then Fail("price", "Price cannot be negative")
      else if Less(Fin(1000000.0), n) then Fail("price", "Price is too high")
      else None
  }

  /** The `quantity` case: present, a whole number, from 0 to 100,000. */
  function ValidateQuantity(h: Host, value: Value): (r: Option<ValidationError>)
    ensures r.Some? ==> r.value.field == "quantity"
    ensures r == None <==> Present(value) && IsInteger(ToNumber(h, value)) && 0.0 <= ToNumber(h, value).r <= 100000.0
  {
    if !Present(value) then Fail("quantity", "Quantity is required")
    else
      var n := ToNumber(h, value);
      if !IsInteger(n) then Fail("quantity", "Quantity must be a whole number")
      else if Less(n, Fin(0.0)) then Fail("quantity", "Quantity cannot be negative")
      else if Less(Fin(100000.0), n) then Fail("quantity", "Quantity is too high")
      else None
  }

  /** The `category` case: required string, 2 to 50 characters. */
  function ValidateCategory(value: Value): (r: Option<ValidationError>)
    ensures r.Some? ==> r.value.field == "category"
    ensures r == None <==> value.Str? && 2 <= |value.s| <= 50
  {
    if !Truthy(value) || !value.Str? then Fail("category", "Category is required")
    else if |value.s| < 2 then Fail("category", "Category must be at least 2 characters")
    else if |value.s| > 50 then Fail("category", "Category cannot exceed 50 characters")
    else None
  }

  /** `validateProduct(field, value)`: the first rule of the field's list that
      the value breaks, or no error. */
  function ValidateProduct(h: Host, field: string, value: Value): (r: Option<ValidationError>)
    ensures r.Some? ==> r.value.field == field
    ensures field !in RuledFields ==> r == None
    ensures field == "name" ==> (r == None <==> value.Str? && 2 <= |value.s| <= 100)
    ensures field == "category" ==> (r == None <==> value.Str? && 2 <= |value.s| <= 50)
    ensures field == "price" ==>
      (r == None <==> Present(value) && ToNumber(h, value).Fin? && 0.0 <= ToNumber(h, value).r <= 1000000.0)
    ensures field == "quantity" ==>
      (r == None <==> Present(value) && IsInteger(ToNumber(h, value)) && 0.0 <= ToNumber(h, value).r <= 100000.0)
  {
    if field == "name" then ValidateName(value)
    else if field == "price" then ValidatePrice(h, value)
    else if field == "quantity" then ValidateQuantity(h, value)
    else if field == "category" then ValidateCategory(value)
    else None
  }

  // ---------------------------------------------------------------------------
  // The rule table, written as data, and the order in which it is applied.

  datatype Check =
    | RequiredString          // truthy and of type string
    | MinLength(min: nat)
    | MaxLength(max: nat)
    | Required                // not null, undefined or ''
    | IsNumber                // Number(value) is not NaN
    | WholeNumber             // Number.isInteger(Number(value))
    | NotNegative             // not Number(value) < 0
    | AtMost(bound: real)     // not Number(value) > bound

  datatype Rule = Rule(check: Check, message: string)

  /** The rules of each field, in the order they are checked. */
  function Rules(field: string): seq<Rule> {
    if field == "name" then
      [ Rule(RequiredString, "Name is required"),
        Rule(MinLength(2), "Name must be at least 2 characters"),
        Rule(MaxLength(100), "Name cannot exceed 100 characters") ]
    else if field == "price" then
      [ Rule(Required, "Price is required"),
        Rule(IsNumber, "Price must be a number"),
        Rule(NotNegative, "Price cannot be negative"),
        Rule(AtMost(1000000.0), "Price is too high") ]
    else if field == "quantity" then
      [ Rule(Required, "Quantity is required"),
        Rule(WholeNumber, "Quantity must be a whole number"),
        Rule(NotNegative, "Quantity cannot be negative"),
        Rule(AtMost(100000.0), "Quantity is too high") ]
    else if field == "category" then
      [ Rule(RequiredString, "Category is required"),
        Rule(MinLength(2), "Category must be at least 2 characters"),
        Rule(MaxLength(50), "Category cannot exceed 50 characters") ]
    else []
  }

  predicate Passes(h: Host, c: Check, v: Value) {
    match c
    case RequiredString => Truthy(v) && v.Str?
    case MinLength(min) => v.Str? ==> |v.s| >= min
    case MaxLength(max) => v.Str? ==> |v.s| <= max
    case Required => Present(v)
    case IsNumber => ToNumber(h, v) != NaN
    case WholeNumber => IsInteger(ToNumber(h, v))
    case NotNegative => !Less(ToNumber(h, v), Fin(0.0))
    case AtMost(bound) => !Less(Fin(bound), ToNumber(h, v))
  }

  /** The message of the first rule the value breaks. */
  function FirstFailure(h: Host, rules: seq<Rule>, v: Value): Option<string> {
    if rules == [] then None
    else if !Passes(h, rules[0].check, v) then Some(rules[0].message)
    else FirstFailure(h, rules[1..], v)
  }

  /** The validator applies each field's rule table in order and stops at the
      first broken rule: it reports exactly one error, for that rule. */
  lemma ValidateFollowsRules(h: Host, field: string, v: Value)
    ensures ValidateProduct(h, field, v) == AsError(field, FirstFailure(h, Rules(field), v))
  {
    if field == "name" || field == "category" {
      TextFollowsRules(h, field, v);
    } else if field == "price" || field == "quantity" {
      NumberFollowsRules(h, field, v);
    }
  }

  /** The text fields check "required", then the minimum, then the maximum
      length. */
  lemma TextFollowsRules(h: Host, field: string, v: Value)
    requires field == "name" || field == "category"
    ensures ValidateProduct(h, field, v) == AsError(field, FirstFailure(h, Rules(field), v))
  {
    var rules := Rules(field);
    FirstFailureOfThree(h, rules[0], rules[1], rules[2], v);
    assert rules == [rules[0], rules[1], rules[2]];
  }

  /** The number fields check presence, then the kind of number, then the
      sign, then the upper bound. */
  lemma NumberFollowsRules(h: Host, field: string, v: Value)
    requires field == "price" || field == "quantity"
    ensures ValidateProduct(h, field, v) == AsError(field, FirstFailure(h, Rules(field), v))
  {
    var rules := Rules(field);
    FirstFailureOfThree(h, rules[1], rules[2], rules[3], v);
    assert rules[1..] == [rules[1], rules[2], rules[3]];
  }

  function AsError(field: string, failure: Option<string>): Option<ValidationError> {
    match failure
    case None => None
    case Some(m) => Some(ValidationError(field, m))
  }

  lemma FirstFailureOfThree(h: Host, a: Rule, b: Rule, c: Rule, v: Value)
    ensures FirstFailure(h, [a, b, c], v) ==
      if !Passes(h, a.check, v) then Some(a.message)
      else if !Passes(h, b.check, v) then Some(b.message)
      else if !Passes(h, c.check, v) then Some(c.message)
      else None
  {
    assert [a, b, c][1..] == [b, c];
    assert [b, c][1..] == [c];
    assert [c][1..] == [];
    assert FirstFailure(h, [c], v) == if !Passes(h, c.check, v) then Some(c.message) else None;
    assert FirstFailure(h, [b, c], v) == if !Passes(h, b.check, v) then Some(b.message) else FirstFailure(h, [c], v);
  }

  /** Quantity checks integrality before sign, and 100,000 is the largest
      quantity accepted. */
  lemma QuantityExamples(h: Host)
    ensures ValidateProduct(h, "quantity", Number(Fin(-2.5))) == Fail("quantity", "Quantity must be a whole number")
    ensures ValidateProduct(h, "quantity", Number(Fin(-2.0))) == Fail("quantity", "Quantity cannot be negative")
    ensures ValidateProduct(h, "quantity", Number(Fin(100000.0))) == None
    ensures ValidateProduct(h, "quantity", Number(Fin(100001.0))) == Fail("quantity", "Quantity is too high")
    ensures ValidateProduct(h, "quantity", Number(Fin(0.0))) == None
  {
  }

  /** A NaN price is "not a number" rather than missing; the empty string is
      missing. */
  lemma PriceExamples(h: Host)
    ensures ValidateProduct(h, "price", Number(NaN)) == Fail("price", "Price must be a number")
    ensures ValidateProduct(h, "price", Number(Fin(-0.01))) == Fail("price", "Price cannot be negative")
    ensures ValidateProduct(h, "price", Number(Fin(1000001.0))) == Fail("price", "Price is too high")
    ensures ValidateProduct(h, "price", Str("")) == Fail("price", "Price is required")
  {
  }

  /** An empty or non-string name is missing; one character is too short. */
  lemma NameExamples(h: Host)
    ensures ValidateProduct(h, "name", Str("A")) == Fail("name", "Name must be at least 2 characters")
    ensures ValidateProduct(h, "name", Str("")) == Fail("name", "Name is required")
    ensures ValidateProduct(h, "name", Number(Fin(42.0))) == Fail("name", "Name is required")
    ensures ValidateProduct(h, "name", Str("AB")) == None
  {
  }

  // ---------------------------------------------------------------------------
  // Stock level

  datatype StockLevel = Out | Low | Medium | High

  /** The order the product table sorts levels by: out, low, medium, high. */
  function LevelOrder(l: StockLevel): nat {
    match l
    case Out => 0
    case Low => 1
    case Medium => 2
    case High => 3
  }

  /** `getStockLevel(quantity)`: at most 0 is out, at most 5 low, at most 20
      medium, anything else high; NaN fails every comparison and is high. */
  function GetStockLevel(q: Num): (l: StockLevel)
    ensures q.Fin? ==>
      && (l == Out <==> q.r <= 0.0)
      && (l == Low <==> 0.0 < q.r <= 5.0)
      && (l == Medium <==> 5.0 < q.r <= 20.0)
      && (l == High <==> 20.0 < q.r)
    ensures q == NegInf ==> l == Out
    ensures q == PosInf || q == NaN ==> l == High
  {
    if LessEq(q, Fin(0.0)) then Out
    else if LessEq(q, Fin(5.0)) then Low
    else if LessEq(q, Fin(20.0)) then Medium
    else High
  }

  /** The classification never goes down as the quantity goes up. */
  lemma StockLevelMonotone(a: Num, b: Num)
    requires LessEq(a, b)
    ensures LevelOrder(GetStockLevel(a)) <= LevelOrder(GetStockLevel(b))
  {
  }
}
