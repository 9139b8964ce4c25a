/**
 * Request values as the handlers receive them (decoded JSON and form fields) and
 * the normalisations applied to them: `to_int_list`, `_s15`, `_s15_key` and the
 * si/no answer.
 */
module Inputs {
  import opened Wrappers
  import opened Text

  /** A decoded JSON value. Numbers are integers; floating-point numbers are not modelled. */
  datatype Json =
    | JNull
    | JBool(b: bool)
    | JInt(i: int)
    | JStr(s: string)
    | JList(items: seq<Json>)
    | JObject(entries: seq<(string, Json)>)

  /** Python truthiness of a decoded JSON value, as used by `x or default`. */
  predicate Truthy(v: Json) {
    match v
    case JNull => false
    case JBool(b) => b
    case JInt(i) => i != 0
    case JStr(s) => s != []
    case JList(items) => items != []
    case JObject(entries) => entries != []
  }

  /** What `for x in v` walks over: list items, the one-character strings of a string, the keys of an object. */
  function Iterate(v: Json): (r: Option<seq<Json>>)
    ensures v.JList? ==> r == Some(v.items)
    ensures v.JNull? || v.JBool? || v.JInt? ==> r == None
  {
    match v
    case JList(items) => Some(items)
    case JStr(s) => Some(seq(|s|, i requires 0 <= i < |s| => JStr([s[i]])))
    case JObject(entries) => Some(seq(|entries|, i requires 0 <= i < |entries| => JStr(entries[i].0)))
    case _ => None
  }

  /** Python's `int(v)`: booleans are 0 and 1, strings are parsed, anything else is a `TypeError`. */
  function PyInt(v: Json): (r: Option<int>)
    ensures v.JBool? ==> r == Some(if v.b then 1 else 0)
    ensures v.JInt? ==> r == Some(v.i)
    ensures v.JStr? ==> r == ParseInt(v.s)
    ensures v.JNull? || v.JList? || v.JObject? ==> r == None
  {
    match v
    case JBool(b) => Some(if b then 1 else 0)
    case JInt(i) => Some(i)
    case JStr(s) => ParseInt(s)
    case _ => None
  }

  /** The integers of `items` in order, or `None` as soon as one of them is not convertible. */
  function IntsOfItems(items: seq<Json>): (r: Option<seq<int>>)
    ensures r.Some? <==> forall i :: 0 <= i < |items| ==> PyInt(items[i]).Some?
    ensures r.Some? ==> |r.value| == |items|
    ensures r.Some? ==> forall i :: 0 <= i < |items| ==> r.value[i] == PyInt(items[i]).value
  {
    if items == [] then Some([])
    else
      var init := items[..|items| - 1];
      match IntsOfItems(init)
      case None => None
      case Some(out) =>
        match PyInt(items[|items| - 1])
        case None => None
        case Some(k) => Some(out + [k])
  }

  /** `to_int_list(values)`: the list of `int(v)` for every `v` in `values`, or `None` on a `TypeError`/`ValueError`. */
  function IntsOf(values: Json): (r: Option<seq<int>>)
    ensures values.JNull? || values.JBool? || values.JInt? ==> r == None
    ensures r.Some? <==> Iterate(values).Some? && forall i :: 0 <= i < |Iterate(values).value| ==> PyInt(Iterate(values).value[i]).Some?
    ensures r.Some? ==> |r.value| == |Iterate(values).value|
    ensures r.Some? ==> forall i :: 0 <= i < |r.value| ==> r.value[i] == PyInt(Iterate(values).value[i]).value
  {
    match Iterate(values)
    case None => None
    case Some(items) => IntsOfItems(items)
  }

  /**
   * The loop of `to_int_list`: converts the items one by one and gives up on the
   * first one that is not an integer.
   */
  method ToIntList(values: Json) returns (r: Option<seq<int>>)
    ensures r == IntsOf(values)
    ensures r.Some? <==> Iterate(values).Some? && forall i :: 0 <= i < |Iterate(values).value| ==> PyInt(Iterate(values).value[i]).Some?
    ensures r.Some? ==> |r.value| == |Iterate(values).value|
  {
    var items := Iterate(values);
    if items.None? {
      assert IntsOf(values) == None;
      return None;
    }
    var vs := items.value;
    var out: seq<int> := [];
    var i := 0;
    while i < |vs|
      invariant 0 <= i <= |vs|
      invariant IntsOfItems(vs[..i]) == Some(out)
    {
      var k := PyInt(vs[i]);
      IntsOfItemsStep(vs, i);
      if k.None? {
        NoneExtends(vs, i + 1);
        assert IntsOf(values) == IntsOfItems(vs);
        return None;
      }
      out := out + [k.value];
      i := i + 1;
    }
    assert vs[..i] == vs;
    assert IntsOf(values) == IntsOfItems(vs);
    return Some(out);
  }

  /** One more item: its integer is appended, or the list is refused. */
  lemma IntsOfItemsStep(items: seq<Json>, n: nat)
    requires n < |items|
    ensures IntsOfItems(items[..n + 1])
         == if IntsOfItems(items[..n]).Some? && PyInt(items[n]).Some?
            then Some(IntsOfItems(items[..n]).value + [PyInt(items[n]).value])
            else None
  {
    assert items[..n + 1][..n] == items[..n];
  }

  /** Once a prefix holds a non-integer, the whole list is refused. */
  lemma NoneExtends(items: seq<Json>, n: nat)
    requires n <= |items| && IntsOfItems(items[..n]).None?
    ensures IntsOfItems(items).None?
  {
    var k :| 0 <= k < n && PyInt(items[..n][k]).None?;
    assert items[k] == items[..n][k];
  }

  /** `_s15(v)`: a rating from 1 to 5, or `None` when `v` is not an integer in that range. */
  function S15(v: Json): (r: Option<int>)
    ensures r.Some? ==> 1 <= r.value <= 5
    ensures r.Some? <==> PyInt(v).Some? && 1 <= PyInt(v).value <= 5
    ensures r.Some? ==> r.value == PyInt(v).value
  {
    match PyInt(v)
    case Some(k) => if 1 <= k <= 5 then Some(k) else None
    case None => None
  }

  /** A submitted form: each field name with its (first) value. */
  type Form = map<Field, string>

  /**
   * The fields of the survey form, each standing for its key: `ticket_id`, `p2`, `p3`,
   * `p4`, `q_rapidez`, `q_resolucion_efectiva`, `q_satis_solucion`, `q_satis_web`,
   * `q_identificacion`, `q_sugerencias` and `comentarios`.
   */
  datatype Field =
    | TicketIdField | P2 | P3 | P4 | Speed | Effectiveness | SolutionSatisfaction | WebSatisfaction
    | Identification | Suggestions | Comments

  /** `form.get(k, "")`, and also `form.get(k) or ""`. */
  function FormGet(form: Form, k: Field): string {
    if k in form then form[k] else ""
  }

  /** `form.get(k, type=int)`: the parsed value, `None` when the field is absent or not an integer. */
  function FormInt(form: Form, k: Field): (r: Option<int>)
    ensures k !in form ==> r == None
    ensures k in form ==> r == ParseInt(form[k])
  {
    if k in form then ParseInt(form[k]) else None
  }

  /** A field holding the decimal digits of `m` is read as `m`. */
  lemma FormIntOfDigits(form: Form, k: Field, m: nat)
    requires k in form && form[k] == DigitsOf(m)
    ensures FormInt(form, k) == Some(m as int)
  {
    ParseIntOfDigits(m);
  }

  /** `_s15_key(k)`: the rating in field `k`, read as `int(form.get(k, ""))`. */
  function S15Key(form: Form, k: Field): (r: Option<int>)
    ensures r.Some? ==> 1 <= r.value <= 5
    ensures k !in form ==> r == None
  {
    S15(JStr(FormGet(form, k)))
  }

  /** A rating written as the digits of `m` is read back as `m` when it lies in 1..5, and dropped otherwise. */
  lemma S15KeyOfDigits(form: Form, k: Field, m: nat)
    requires k in form && form[k] == DigitsOf(m)
    ensures S15Key(form, k) == if 1 <= m <= 5 then Some(m as int) else None
  {
    assert FormGet(form, k) == DigitsOf(m);
    ParseIntOfDigits(m);
  }

  /** The identification answer, lower-cased; anything but "si" or "no" is stored as `None`. */
  function YesNo(form: Form, k: Field): (r: Option<string>)
    ensures r == None || r == Some("si") || r == Some("no")
    ensures r.Some? <==> Lower(FormGet(form, k)) in {"si", "no"}
    ensures r.Some? ==> r.value == Lower(FormGet(form, k))
  {
    var a := Lower(FormGet(form, k));
    if a == "si" || a == "no" then Some(a) else None
  }
}
