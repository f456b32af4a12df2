/**
 * JSON values as the Cloud Functions see them once a request body or an
 * event has been decoded: Python's None, bool, int, str, list and dict.
 * A dict is a sequence of members in insertion order, which is the order
 * `json.dumps` writes them in.
 */
module Json {

  datatype Value =
    | Null
    | Bool(b: bool)
    | Num(n: int)
    | Str(s: string)
    | Arr(items: seq<Value>)
    | Obj(members: seq<Member>)

  datatype Member = Member(key: string, value: Value)

  /** Python truthiness: None, False, 0, "", [] and {} are false. */
  predicate Truthy(v: Value) {
    match v
    case Null => false
    case Bool(b) => b
    case Num(n) => n != 0
    case Str(s) => s != []
    case Arr(items) => items != []
    case Obj(members) => members != []
  }

  /** `dict.get(key)`: the value stored under `key`, or None when the key is
      absent. When a decoded object repeats a key, the last one wins, as it
      does for `json.loads`. */
  function Get(members: seq<Member>, key: string): Value
    decreases |members|
  {
    if members == [] then Null
    else if members[|members| - 1].key == key then members[|members| - 1].value
    else Get(members[..|members| - 1], key)
  }

  /** What `Get` finds: null when no member has the key, and otherwise the
      value of the last member that has it. */
  lemma {:induction false} GetLast(members: seq<Member>, key: string)
    ensures (forall i :: 0 <= i < |members| ==> members[i].key != key) ==> Get(members, key) == Null
    ensures forall i ::
      (0 <= i < |members| && members[i].key == key && forall k :: i < k < |members| ==> members[k].key != key)
      ==> Get(members, key) == members[i].value
    decreases |members|
  {
    if members != [] {
      var n := |members| - 1;
      var init := members[..n];
      if members[n].key != key {
        assert Get(members, key) == Get(init, key);
        GetLast(init, key);
        if forall i :: 0 <= i < |members| ==> members[i].key != key {
          assert forall i :: 0 <= i < |init| ==> init[i].key != key by {
            forall i | 0 <= i < |init| ensures init[i].key != key {
              assert init[i] == members[i];
            }
          }
        }
        forall i | 0 <= i < |members| && members[i].key == key && forall k :: i < k < |members| ==> members[k].key != key
          ensures Get(members, key) == members[i].value
        {
          assert i < n;
          assert init[i] == members[i];
          forall k | i < k < |init| ensures init[k].key != key {
            assert init[k] == members[k];
          }
        }
      }
    }
  }

  /** The value a key holds when it occurs at `i` and not after. */
  lemma {:induction false} GetAt(members: seq<Member>, i: nat, key: string)
    requires i < |members| && members[i].key == key
    requires forall k :: i < k < |members| ==> members[k].key != key
    ensures Get(members, key) == members[i].value
  {
    GetLast(members, key);
  }

  /** A one-member object `{key: value}`. */
  function Single(key: string, value: Value): Value {
    Obj([Member(key, value)])
  }
}
