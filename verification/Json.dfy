/** `serde_json::Value` and the ordering its sorted string lists rely on. */
module Json {
  import opened Text

  /** Numbers keep their printed text; object keys are unique, as in the source's map. */
  datatype Value =
    | Null
    | Bool(flag: bool)
    | Number(text: string)
    | Str(text: string)
    | Array(items: seq<Value>)
    | Object(fields: map<string, Value>)
  {
    /** `Value::get` with a string index. */
    function Get(key: string): Option<Value> {
      if Object? && key in fields then Some(fields[key]) else None
    }

    /** `Value::get` with a numeric index. */
    function Item(index: nat): Option<Value> {
      if Array? && index < |items| then Some(items[index]) else None
    }
  }

  // ─── String order ─────────────────────────────────────────────────

  /** Order of `String`: by scalar values, which is the order of the UTF-8 bytes. */
  predicate StringLe(a: string, b: string) {
    a == "" || (b != "" && (a[0] < b[0] || (a[0] == b[0] && StringLe(a[1..], b[1..]))))
  }

  lemma {:induction false} StringLeTotal(a: string, b: string)
    ensures StringLe(a, b) || StringLe(b, a)
    ensures StringLe(a, b) && StringLe(b, a) ==> a == b
  {
    if a != "" && b != "" && a[0] == b[0] {
      StringLeTotal(a[1..], b[1..]);
      assert a == [a[0]] + a[1..] && b == [b[0]] + b[1..];
    }
  }

  lemma {:induction false} StringLeTransitive(a: string, b: string, c: string)
    requires StringLe(a, b) && StringLe(b, c)
    ensures StringLe(a, c)
  {
    if a != "" && a[0] == b[0] && b[0] == c[0] {
      StringLeTransitive(a[1..], b[1..], c[1..]);
    }
  }

  predicate IsLeast(least: string, s: set<string>) {
    least in s && forall x | x in s :: StringLe(least, x)
  }

  lemma {:induction false} LeastExists(s: set<string>)
    requires s != {}
    ensures exists least :: IsLeast(least, s)
  {
    var x :| x in s;
    if s == {x} {
      StringLeTotal(x, x);
      assert IsLeast(x, s);
    } else {
      LeastExists(s - {x});
      var m :| IsLeast(m, s - {x});
      StringLeTotal(x, m);
      StringLeTotal(x, x);
      if StringLe(m, x) {
        assert IsLeast(m, s);
      } else {
        forall y | y in s ensures StringLe(x, y) {
          if y != x { StringLeTransitive(x, m, y); }
        }
        assert IsLeast(x, s);
      }
    }
  }

  function Least(s: set<string>): (least: string)
    requires s != {}
    ensures IsLeast(least, s)
  {
    LeastExists(s);
    assert forall x, y | IsLeast(x, s) && IsLeast(y, s) :: x == y by {
      forall x, y | IsLeast(x, s) && IsLeast(y, s) ensures x == y {
        StringLeTotal(x, y);
      }
    }
    var least :| IsLeast(least, s);
    least
  }

  /** What `sort` followed by `dedup` leaves of a list with these elements. */
  function SortedElements(s: set<string>): seq<string> {
    if s == {} then [] else [Least(s)] + SortedElements(s - {Least(s)})
  }

  /** The list is strictly increasing and has exactly the set's elements. */
  lemma {:induction false} SortedElementsAre(s: set<string>)
    ensures var r := SortedElements(s);
            && (forall x :: x in r <==> x in s)
            && forall i, j | 0 <= i < j < |r| :: r[i] != r[j] && StringLe(r[i], r[j])
  {
    if s != {} { SortedElementsAre(s - {Least(s)}); }
  }
}
