/** The JavaScript values a Node-RED message or node configuration can carry
    in the fields the command builders read, with the two operations the
    builders apply to them: `a || b` and template-literal interpolation. */
module JsValues {
  import opened Decimal

  /** A field's value. `Undefined` stands for an absent field. Numbers are
      integers: the fields read as numbers (amount, size) are counts. They are
      unbounded, while a JavaScript number holds every integer only up to
      2^53 - 1. */
  datatype JsValue = Undefined | Null | Bool(b: bool) | Num(n: int) | Str(s: string)

  /** The message and configuration properties the nodes read, spelled as in
      the source (`msg.player`, `config.action`, ...); no other property
      influences a command. */
  datatype Key =
    | action | player | reason | gamemode | coordinates | item | amount | xp
    | time | weather | difficulty | rule | value | size
    | subaction | message | payload
    | infoType | objective
    | block | endCoordinates | destination
    | entity | nbt | selector | target | data

  /** A message (`msg`) or a node configuration (`config`): its properties. */
  type Fields = map<Key, JsValue>

  /** Property read `fields.name`; a missing property reads as undefined. */
  function Get(fields: Fields, name: Key): JsValue {
    if name in fields then fields[name] else Undefined
  }

  /** JavaScript truthiness: undefined, null, false, 0 and "" are falsy. */
  predicate Truthy(v: JsValue) {
    match v
    case Undefined => false
    case Null => false
    case Bool(b) => b
    case Num(n) => n != 0
    case Str(s) => s != ""
  }

  /** `a || b`: the left operand when it is truthy, otherwise the right one. */
  function Or(a: JsValue, b: JsValue): (r: JsValue)
    ensures Truthy(r) <==> Truthy(a) || Truthy(b)
    ensures Truthy(a) ==> r == a
    ensures !Truthy(a) ==> r == b
  {
    if Truthy(a) then a else b
  }

  /** Reference reading of a chain `v0 || v1 || ... || vn`: the first truthy
      operand, or the last operand when none is truthy. */
  function Coalesce(vs: seq<JsValue>): (r: JsValue)
    requires |vs| >= 1
    ensures exists i :: 0 <= i < |vs| && vs[i] == r && (Truthy(r) || i == |vs| - 1)
                        && forall j :: 0 <= j < i ==> !Truthy(vs[j])
  {
    if |vs| == 1 || Truthy(vs[0]) then
      vs[0]
    else
      var r := Coalesce(vs[1..]);
      var i :| 0 <= i < |vs[1..]| && vs[1..][i] == r && (Truthy(r) || i == |vs[1..]| - 1)
               && forall j :: 0 <= j < i ==> !Truthy(vs[1..][j]);
      assert vs[i + 1] == r;
      assert forall j :: 0 <= j < i + 1 ==> !Truthy(vs[j]) by {
        forall j | 0 <= j < i + 1 ensures !Truthy(vs[j]) {
          if j > 0 {
            assert vs[j] == vs[1..][j - 1];
          }
        }
      }
      r
  }

  /** The left-nested chains the source writes (`msg.player || config.player
      || "@p"`) pick the first truthy operand, falling back to the last. */
  lemma OrChainIsCoalesce(a: JsValue, b: JsValue, c: JsValue)
    ensures Or(Or(a, b), c) == Coalesce([a, b, c])
    ensures Or(Or(a, b), c) == Or(a, Or(b, c))
  {
    var r := Coalesce([a, b, c]);
    var i :| 0 <= i < 3 && [a, b, c][i] == r && (Truthy(r) || i == 2)
             && forall j :: 0 <= j < i ==> !Truthy([a, b, c][j]);
    if i == 1 {
      assert !Truthy([a, b, c][0]);
    } else if i == 2 {
      assert !Truthy([a, b, c][0]) && !Truthy([a, b, c][1]);
    }
  }

  /** Template-literal interpolation `${v}`, i.e. JavaScript's `String(v)`. */
  function Text(v: JsValue): (t: string)
    ensures t == "" <==> v == Str("")
  {
    match v
    case Undefined => "undefined"
    case Null => "null"
    case Bool(b) => if b then "true" else "false"
    case Num(n) => IntToDecimal(n)
    case Str(s) => s
  }
}
