/** The "Employees by Department" pie chart: a tally of the roster by
    department, its labels in ascending order, one count per label and the
    colour of each slice. */
module DepartmentChart {
  import opened Wrappers
  import opened Text
  import opened Seqs
  import opened Sorting
  import opened Models

  const Unassigned := "Unassigned"

  const Colors: seq<string> := [
    "#2563eb", "#16a34a", "#ea580c", "#7c3aed", "#0891b2",
    "#dc2626", "#ca8a04", "#db2777", "#059669", "#4f46e5"
  ]

  /** `e.department || 'Unassigned'`: the empty string is falsy. */
  function Label(e: Employee): string {
    if e.department == "" then Unassigned else e.department
  }

  /** The number of employees counted under label `l`. */
  function CountOf(s: seq<Employee>, l: string): nat {
    if s == [] then 0
    else CountOf(s[..|s| - 1], l) + if Label(s[|s| - 1]) == l then 1 else 0
  }

  /** A label has a positive count exactly when some employee carries it. */
  lemma {:induction false} CountOfPositive(s: seq<Employee>, l: string)
    ensures CountOf(s, l) > 0 <==> exists e :: e in s && Label(e) == l
    decreases |s|
  {
    if s != [] {
      var init, x := s[..|s| - 1], s[|s| - 1];
      assert s == init + [x];
      CountOfPositive(init, l);
      if CountOf(init, l) > 0 {
        var e :| e in init && Label(e) == l;
        assert e in s;
      }
    }
  }

  /** Counting one more employee adds one to its own label only. */
  lemma CountOfStep(s: seq<Employee>, i: nat, l: string)
    requires i < |s|
    ensures CountOf(s[..i + 1], l) == CountOf(s[..i], l) + if Label(s[i]) == l then 1 else 0
  {
    assert s[..i + 1][..i] == s[..i];
  }

  function Itself(s: string): string { s }

  /** `counts[l]`, reading a missing key as 0. */
  function Val(m: map<string, nat>, l: string): nat {
    if l in m then m[l] else 0
  }

  /** The sum of the counts of the labels in `s`, one term per position. */
  function SumOver(s: seq<string>, m: map<string, nat>): nat {
    if s == [] then 0 else Val(m, s[0]) + SumOver(s[1..], m)
  }

  function Sum(s: seq<nat>): nat {
    if s == [] then 0 else s[0] + Sum(s[1..])
  }

  lemma {:induction false} SumOverConcat(a: seq<string>, b: seq<string>, m: map<string, nat>)
    ensures SumOver(a + b, m) == SumOver(a, m) + SumOver(b, m)
    decreases |a|
  {
    if a != [] {
      assert (a + b)[0] == a[0] && (a + b)[1..] == a[1..] + b;
      SumOverConcat(a[1..], b, m);
    } else {
      assert a + b == b;
    }
  }

  /** Changing the count of a label that does not occur changes no term. */
  lemma {:induction false} SumOverUnaffected(s: seq<string>, m: map<string, nat>, l: string, v: nat)
    requires l !in s
    ensures SumOver(s, m[l := v]) == SumOver(s, m)
    decreases |s|
  {
    if s != [] {
      assert s[0] != l;
      assert forall x :: x in s[1..] ==> x in s;
      SumOverUnaffected(s[1..], m, l, v);
    }
  }

  /** Adding one to the count of a label that occurs once adds one to the sum. */
  lemma {:induction false} SumOverBump(s: seq<string>, m: map<string, nat>, l: string)
    requires DistinctBy(s, Itself) && l in s
    ensures SumOver(s, m[l := Val(m, l) + 1]) == SumOver(s, m) + 1
    decreases |s|
  {
    DistinctByTail(s, Itself);
    if s[0] == l {
      assert l !in s[1..] by {
        forall j | 0 <= j < |s[1..]| ensures s[1..][j] != l {
          assert Itself(s[0]) != Itself(s[j + 1]);
        }
      }
      SumOverUnaffected(s[1..], m, l, Val(m, l) + 1);
    } else {
      SumOverBump(s[1..], m, l);
    }
  }

  /** Removing one position removes its term. */
  lemma SumOverRemove(s: seq<string>, j: nat, m: map<string, nat>)
    requires j < |s|
    ensures SumOver(s, m) == Val(m, s[j]) + SumOver(s[..j] + s[j + 1..], m)
  {
    assert s == s[..j] + ([s[j]] + s[j + 1..]);
    SumOverConcat(s[..j], [s[j]] + s[j + 1..], m);
    SumOverConcat(s[..j], s[j + 1..], m);
    assert ([s[j]] + s[j + 1..])[1..] == s[j + 1..];
  }

  /** Taking the first element out of `s` and a matching position out of a
      permutation `t` of `s` leaves two permutations of each other. */
  lemma RemoveMatching<T>(s: seq<T>, t: seq<T>, j: nat)
    requires multiset(s) == multiset(t) && s != [] && j < |t| && t[j] == s[0]
    ensures multiset(s[1..]) == multiset(t[..j] + t[j + 1..])
  {
    assert t == t[..j] + [t[j]] + t[j + 1..];
    assert s == [s[0]] + s[1..];
    calc {
      multiset(s[1..]);
      multiset(s) - multiset{s[0]};
      multiset(t) - multiset{t[j]};
      multiset(t[..j]) + multiset(t[j + 1..]);
      multiset(t[..j] + t[j + 1..]);
    }
  }

  /** The sum does not depend on the order of the labels. */
  lemma {:induction false} SumOverPermutation(s: seq<string>, t: seq<string>, m: map<string, nat>)
    requires multiset(s) == multiset(t)
    ensures SumOver(s, m) == SumOver(t, m)
    decreases |s|
  {
    if s == [] {
      assert |t| == |multiset(t)| == 0;
    } else {
      assert s[0] in multiset(t);
      var j :| 0 <= j < |t| && t[j] == s[0];
      RemoveMatching(s, t, j);
      SumOverPermutation(s[1..], t[..j] + t[j + 1..], m);
      SumOverRemove(t, j, m);
    }
  }

  /** Summing the looked-up counts is summing over the labels. */
  lemma {:induction false} SumOfLookups(labels: seq<string>, m: map<string, nat>, data: seq<nat>)
    requires |data| == |labels| && forall i :: 0 <= i < |labels| ==> data[i] == Val(m, labels[i])
    ensures Sum(data) == SumOver(labels, m)
    decreases |labels|
  {
    if labels != [] {
      SumOfLookups(labels[1..], m, data[1..]);
    }
  }

  /** What the loop of `Tally` keeps after `i` employees: the counters hold
      the count of every label seen so far, `keys` lists each label once and
      the counters add up to `i`. */
  ghost predicate Tallied(employees: seq<Employee>, i: nat, counts: map<string, nat>, keys: seq<string>)
    requires i <= |employees|
  {
    && (forall l :: l in counts <==> CountOf(employees[..i], l) > 0)
    && (forall l :: l in counts ==> counts[l] == CountOf(employees[..i], l))
    && (forall l :: l in keys <==> l in counts)
    && DistinctBy(keys, Itself)
    && SumOver(keys, counts) == i
  }

  /** A label seen before: its counter goes up by one. */
  lemma TallyExisting(employees: seq<Employee>, i: nat, counts: map<string, nat>, keys: seq<string>)
    requires i < |employees| && Tallied(employees, i, counts, keys)
    requires Label(employees[i]) in counts
    ensures var d := Label(employees[i]); Tallied(employees, i + 1, counts[d := counts[d] + 1], keys)
  {
    var d := Label(employees[i]);
    forall l ensures CountOf(employees[..i + 1], l) == CountOf(employees[..i], l) + if d == l then 1 else 0 {
      CountOfStep(employees, i, l);
    }
    SumOverBump(keys, counts, d);
  }

  /** A new label: a counter at one, appended to the keys. */
  lemma TallyNew(employees: seq<Employee>, i: nat, counts: map<string, nat>, keys: seq<string>)
    requires i < |employees| && Tallied(employees, i, counts, keys)
    requires Label(employees[i]) !in counts
    ensures var d := Label(employees[i]); Tallied(employees, i + 1, counts[d := 1], keys + [d])
  {
    var d := Label(employees[i]);
    forall l ensures CountOf(employees[..i + 1], l) == CountOf(employees[..i], l) + if d == l then 1 else 0 {
      CountOfStep(employees, i, l);
    }
    SumOverUnaffected(keys, counts, d, 1);
    SumOverConcat(keys, [d], counts[d := 1]);
    DistinctByAppend(keys, d, Itself);
  }

  /** The `forEach` of `chartData`: one increment of the department's counter
      per employee, remembering the order in which labels first appeared
      (the order of `Object.keys`). */
  method Tally(employees: seq<Employee>) returns (counts: map<string, nat>, keys: seq<string>)
    ensures forall l :: l in counts <==> CountOf(employees, l) > 0
    ensures forall l :: l in counts ==> counts[l] == CountOf(employees, l)
    ensures forall l :: l in keys <==> l in counts
    ensures DistinctBy(keys, Itself)
    ensures SumOver(keys, counts) == |employees|
  {
    counts := map[];
    keys := [];
    var i := 0;
    while i < |employees|
      invariant 0 <= i <= |employees|
      invariant Tallied(employees, i, counts, keys)
    {
      var d := Label(employees[i]);
      if d in counts {
        TallyExisting(employees, i, counts, keys);
        counts := counts[d := counts[d] + 1];
      } else {
        TallyNew(employees, i, counts, keys);
        keys := keys + [d];
        counts := counts[d := 1];
      }
      i := i + 1;
    }
    assert employees[..i] == employees;
  }

  /** The chart's data: labels, one count per label, one colour per slice. */
  datatype Pie = Pie(labels: seq<string>, data: seq<nat>, colors: seq<string>)

  /** `chartData`: the sorted labels, `data[i]` the count of `labels[i]`, and
      the colours taken from the palette in turn. Every employee is counted
      exactly once. */
  method ChartData(employees: seq<Employee>) returns (pie: Pie)
    ensures StrictlySortedBy(pie.labels, Itself)
    ensures forall l :: l in pie.labels <==> exists e :: e in employees && Label(e) == l
    ensures |pie.data| == |pie.labels|
    ensures forall i :: 0 <= i < |pie.labels| ==> pie.data[i] == CountOf(employees, pie.labels[i])
    ensures Sum(pie.data) == |employees|
    ensures |pie.colors| == |pie.labels|
    ensures forall i :: 0 <= i < |pie.labels| ==> pie.colors[i] == Colors[i % |Colors|]
  {
    var counts, keys := Tally(employees);
    var labels := SortByKey(keys, Itself);
    SortedKeys(employees, counts, keys, labels);
    var data := seq(|labels|, i requires 0 <= i < |labels| => Val(counts, labels[i]));
    SumOverPermutation(keys, labels, counts);
    SumOfLookups(labels, counts, data);
    var colors := seq(|labels|, i requires 0 <= i < |labels| => Colors[i % |Colors|]);
    pie := Pie(labels, data, colors);
  }

  /** Sorting the keys keeps exactly the labels that occur, each once. */
  lemma SortedKeys(employees: seq<Employee>, counts: map<string, nat>, keys: seq<string>, labels: seq<string>)
    requires forall l :: l in counts <==> CountOf(employees, l) > 0
    requires forall l :: l in keys <==> l in counts
    requires DistinctBy(keys, Itself)
    requires labels == SortByKey(keys, Itself)
    ensures StrictlySortedBy(labels, Itself)
    ensures forall l :: l in labels <==> exists e :: e in employees && Label(e) == l
    ensures forall l :: l in labels ==> l in counts
  {
    SortByKeySorted(keys, Itself);
    forall l ensures l in labels <==> l in keys {
      assert l in labels <==> l in multiset(labels);
      assert l in keys <==> l in multiset(keys);
    }
    forall l ensures l in labels <==> exists e :: e in employees && Label(e) == l {
      CountOfPositive(employees, l);
    }
  }

  /** The component: nothing for an empty roster, otherwise the pie. */
  method Render(employees: seq<Employee>) returns (view: Option<Pie>)
    ensures view.None? <==> employees == []
    ensures view.Some? ==> view.value.labels != [] && Sum(view.value.data) == |employees|
  {
    var pie := ChartData(employees);
    if |employees| == 0 {
      view := None;
    } else {
      assert employees[0] in employees;
      assert Label(employees[0]) in pie.labels;
      view := Some(pie);
    }
  }

  /* The counters of `chartData` as written live in a plain object literal
     `{}`, which inherits the members of `Object.prototype`. The functions
     below model that object; `ChartData` above is the intended tally, as a
     prototype-free `Object.create(null)` or a `Map` would give it. */

  /** The properties every plain object inherits from `Object.prototype`. */
  const PrototypeMembers: set<string> := {
    "constructor", "hasOwnProperty", "isPrototypeOf", "propertyIsEnumerable",
    "toLocaleString", "toString", "valueOf", "__defineGetter__",
    "__defineSetter__", "__lookupGetter__", "__lookupSetter__", "__proto__"
  }

  /** A value read from the object: nothing, a count, or anything that is not
      a number (an inherited function or object, or a string built from one). */
  datatype JsValue = Undefined | Number(n: nat) | NotANumber

  /** The own properties of the counter object, and the order in which they
      were created (the order of `Object.keys` for non-index keys). */
  datatype JsObject = JsObject(own: map<string, JsValue>, keys: seq<string>)

  /** `counts[d]`: an own property, else an inherited one, else `undefined`. */
  function Get(obj: JsObject, d: string): JsValue {
    if d in obj.own then obj.own[d]
    else if d in PrototypeMembers then NotANumber
    else Undefined
  }

  /** `(v || 0) + 1`: `undefined` becomes 1, a count goes up by one, and a
      function or object is converted to a string and concatenated with 1. */
  function Incremented(v: JsValue): JsValue {
    match v {
      case Undefined => Number(1)
      case Number(n) => Number(n + 1)
      case NotANumber => NotANumber
    }
  }

  /** `counts[d] = v`: an own property, except that assigning a primitive to
      `__proto__` is silently ignored. */
  function Put(obj: JsObject, d: string, v: JsValue): JsObject {
    if d == "__proto__" then obj
    else JsObject(obj.own[d := v], if d in obj.own then obj.keys else obj.keys + [d])
  }

  /** The `forEach` of `chartData` as written, on a plain object. */
  function TallyAsWritten(s: seq<Employee>): JsObject {
    if s == [] then JsObject(map[], [])
    else
      var obj := TallyAsWritten(s[..|s| - 1]);
      var d := Label(s[|s| - 1]);
      Put(obj, d, Incremented(Get(obj, d)))
  }

  /** Off the prototype's names, the plain object holds exactly the intended
      counts: one own property per label that occurs, listed once each. */
  lemma {:induction false} TallyAsWrittenOffPrototype(s: seq<Employee>)
    requires forall e :: e in s ==> Label(e) !in PrototypeMembers
    ensures var obj := TallyAsWritten(s);
      && (forall l :: l in obj.own <==> CountOf(s, l) > 0)
      && (forall l :: l in obj.own ==> obj.own[l] == Number(CountOf(s, l)))
      && (forall l :: l in obj.keys <==> l in obj.own)
      && DistinctBy(obj.keys, Itself)
    decreases |s|
  {
    if s != [] {
      var init := s[..|s| - 1];
      var d := Label(s[|s| - 1]);
      assert forall e :: e in init ==> e in s;
      TallyAsWrittenOffPrototype(init);
      var obj := TallyAsWritten(init);
      forall l ensures CountOf(s, l) == CountOf(init, l) + if d == l then 1 else 0 {
        CountOfStep(s, |s| - 1, l);
        assert s[..|s|] == s;
      }
      if d !in obj.own {
        DistinctByAppend(obj.keys, d, Itself);
      }
    }
  }

  /** An employee of department `__proto__` is not counted at all: the chart
      has no label while the roster has one employee. */
  lemma ProtoDepartmentVanishes(e: Employee)
    requires e.department == "__proto__"
    ensures TallyAsWritten([e]).keys == []
    ensures CountOf([e], "__proto__") == 1
  {
    assert [e][..0] == [];
  }

  /** An employee of department `constructor` gets a slice whose value is not
      a number (`"function Object() { [native code] }1"`). */
  lemma ConstructorDepartmentNotANumber(e: Employee)
    requires e.department == "constructor"
    ensures TallyAsWritten([e]).keys == ["constructor"]
    ensures TallyAsWritten([e]).own["constructor"] == NotANumber
  {
    assert [e][..0] == [];
  }
}
