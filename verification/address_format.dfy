/** The single-line address kept in the `patients.address` column: the primary
    address's components, in a fixed order, with the absent and empty ones dropped,
    joined by ", " (`[...].filter(Boolean).join(', ')`). */
module AddressFormat {
  import opened Options
  import opened PatientSchema

  /** `filter(Boolean)` over strings that may be `undefined`: both `undefined` and the
      empty string are falsy, so exactly the present, non-empty strings are kept, in
      their original order. */
  function Kept(parts: seq<Option<string>>): (r: seq<string>)
    ensures |r| <= |parts|
    ensures forall i :: 0 <= i < |r| ==> r[i] != ""
  {
    if parts == [] then []
    else if parts[0].Some? && parts[0].value != "" then [parts[0].value] + Kept(parts[1..])
    else Kept(parts[1..])
  }

  /** Exactly the present, non-empty strings survive the filter. */
  lemma {:induction false} KeptMembers(parts: seq<Option<string>>)
    ensures forall x :: x in Kept(parts) <==> x != "" && Some(x) in parts
  {
    if parts != [] {
      KeptMembers(parts[1..]);
      assert parts == [parts[0]] + parts[1..];
    }
  }

  /** `Array.prototype.join(', ')`. */
  function Join(parts: seq<string>): string {
    if |parts| == 0 then ""
    else if |parts| == 1 then parts[0]
    else parts[0] + ", " + Join(parts[1..])
  }

  /** The inverse of `Join` for components without a comma: cuts `s` at every ", ". */
  function Split(s: string): (r: seq<string>)
    ensures |r| >= 1
  {
    if s == [] then [""]
    else if |s| >= 2 && s[0] == ',' && s[1] == ' ' then [""] + Split(s[2..])
    else
      var rest := Split(s[1..]);
      [[s[0]] + rest[0]] + rest[1..]
  }

  predicate CommaFree(s: string) {
    forall i :: 0 <= i < |s| ==> s[i] != ','
  }

  /** The components the handler lists, in its order: line 1, line 2, city, state,
      ZIP code, country. The secondary address has no part in it. */
  function Components(a: Address): seq<Option<string>> {
    [Some(a.addressLine1), a.addressLine2, Some(a.city), Some(a.state), Some(a.zipCode), Some(a.country)]
  }

  /** The value stored in `patients.address`. */
  function AddressString(a: Address): string {
    Join(Kept(Components(a)))
  }

  // ---------------------------------------------------------------------------
  // Properties

  /** Filtering distributes over concatenation, so the kept components stay in order. */
  lemma {:induction false} KeptAppend(a: seq<Option<string>>, b: seq<Option<string>>)
    ensures Kept(a + b) == Kept(a) + Kept(b)
  {
    if a == [] {
      assert a + b == b;
    } else {
      assert (a + b)[1..] == a[1..] + b;
      KeptAppend(a[1..], b);
    }
  }

  /** The joined string begins with its first component, and is empty only when
      there is nothing to join or the one component is itself empty. */
  lemma {:induction false} JoinStartsWithFirst(parts: seq<string>)
    requires |parts| >= 1
    ensures parts[0] <= Join(parts)
    ensures |Join(parts)| >= |parts[0]|
  {
  }

  /** The line-1 component is always kept first, because line 1 is never empty. */
  lemma KeptComponentsStartWithLine1(a: Address)
    requires WellFormedAddress(a)
    ensures Kept(Components(a)) == [a.addressLine1] + Kept(Components(a)[1..])
  {
  }

  /** The derived address is never empty and begins with `addressLine1`, which is what
      makes it fit the `NOT NULL` text column. */
  lemma AddressStringStartsWithLine1(a: Address)
    requires WellFormedAddress(a)
    ensures AddressString(a) != ""
    ensures a.addressLine1 <= AddressString(a)
  {
    KeptComponentsStartWithLine1(a);
    JoinStartsWithFirst(Kept(Components(a)));
  }

  /** Splitting a comma-free component followed by the separator peels off exactly
      that component. */
  lemma {:induction false} SplitAfterComponent(p: string, t: string)
    requires CommaFree(p)
    ensures Split(p + ", " + t) == [p] + Split(t)
  {
    if p == [] {
      assert p + ", " + t == ", " + t;
      assert (", " + t)[2..] == t;
    } else {
      assert (p + ", " + t)[1..] == p[1..] + ", " + t;
      SplitAfterComponent(p[1..], t);
      assert [p[0]] + p[1..] == p;
    }
  }

  lemma {:induction false} SplitComponent(p: string)
    requires CommaFree(p)
    ensures Split(p) == [p]
  {
    if p != [] {
      SplitComponent(p[1..]);
      assert [p[0]] + p[1..] == p;
    }
  }

  /** Split undoes Join when no component contains a comma. */
  lemma {:induction false} SplitJoin(parts: seq<string>)
    requires |parts| >= 1
    requires forall i :: 0 <= i < |parts| ==> CommaFree(parts[i])
    ensures Split(Join(parts)) == parts
  {
    if |parts| == 1 {
      SplitComponent(parts[0]);
    } else {
      SplitJoin(parts[1..]);
      SplitAfterComponent(parts[0], Join(parts[1..]));
    }
  }

  /** When no component contains a comma, the derived address is exactly the kept
      components separated by ", ": its segments are line 1 first and then the other
      present components in order, and none of them is empty. */
  lemma AddressStringSegments(a: Address)
    requires WellFormedAddress(a)
    requires forall i :: 0 <= i < |Components(a)| ==>
      Components(a)[i].None? || CommaFree(Components(a)[i].value)
    ensures Split(AddressString(a)) == Kept(Components(a))
    ensures Split(AddressString(a))[0] == a.addressLine1
    ensures forall i :: 0 <= i < |Split(AddressString(a))| ==> Split(AddressString(a))[i] != ""
  {
    var kept := Kept(Components(a));
    KeptComponentsStartWithLine1(a);
    KeptCommaFree(Components(a));
    SplitJoin(kept);
  }

  /** A comma inside a component is not escaped, so the segments of the stored string
      need not be the components: a line 1 of the form "p, q" reads back with p as a
      segment of its own, and the string has at least two segments. */
  lemma CommaInLine1SplitsIt(a: Address, p: string, q: string)
    requires a.addressLine1 == p + ", " + q && CommaFree(p)
    ensures Split(AddressString(a)) == [p] + Split(q + AddressString(a)[|a.addressLine1|..])
    ensures |Split(AddressString(a))| >= 2
  {
    var s := AddressString(a);
    KeptComponents(a);
    assert a.addressLine1 != "";
    JoinStartsWithFirst(Kept(Components(a)));
    assert s == a.addressLine1 + s[|a.addressLine1|..];
    assert s == p + ", " + (q + s[|a.addressLine1|..]);
    SplitAfterComponent(p, q + s[|a.addressLine1|..]);
  }

  /** When line 1 is "p, q" and nothing else holds a comma, the stored string reads
      back as p, q and then the other kept components: one segment more than there
      are components. */
  lemma CommaInLine1AddsSegment(a: Address, p: string, q: string)
    requires a.addressLine1 == p + ", " + q && CommaFree(p) && CommaFree(q)
    requires forall i :: 1 <= i < |Components(a)| ==>
      Components(a)[i].None? || CommaFree(Components(a)[i].value)
    ensures Split(AddressString(a)) == [p, q] + Kept(Components(a))[1..]
    ensures |Split(AddressString(a))| == |Kept(Components(a))| + 1
  {
    var c := Components(a);
    var rest := Kept(c[1..]);
    KeptCons(c);
    assert Kept(c) == [a.addressLine1] + rest;
    KeptCommaFree(c[1..]);
    var parts := [p, q] + rest;
    JoinInsertsSeparator(p, q, rest);
    assert AddressString(a) == Join(parts);
    forall i | 0 <= i < |parts| ensures CommaFree(parts[i]) {
      if i >= 2 {
        assert parts[i] == rest[i - 2];
      }
    }
    SplitJoin(parts);
  }

  /** Whatever the filter keeps of comma-free components is comma-free. */
  lemma KeptCommaFree(parts: seq<Option<string>>)
    requires forall i :: 0 <= i < |parts| ==> parts[i].None? || CommaFree(parts[i].value)
    ensures forall i :: 0 <= i < |Kept(parts)| ==> CommaFree(Kept(parts)[i])
  {
    var kept := Kept(parts);
    KeptMembers(parts);
    forall i | 0 <= i < |kept| ensures CommaFree(kept[i]) {
      assert kept[i] in kept;
      var j :| 0 <= j < |parts| && parts[j] == Some(kept[i]);
    }
  }

  /** Joining "p, q" in front of `rest` is joining p and q as two parts. */
  lemma JoinInsertsSeparator(p: string, q: string, rest: seq<string>)
    ensures Join([p + ", " + q] + rest) == Join([p, q] + rest)
  {
    var parts := [p, q] + rest;
    assert parts[1..] == [q] + rest;
    if rest == [] {
      assert [p + ", " + q] + rest == [p + ", " + q];
      assert [q] + rest == [q];
    } else {
      assert ([p + ", " + q] + rest)[1..] == rest;
      assert ([q] + rest)[1..] == rest;
      assert Join([q] + rest) == q + ", " + Join(rest);
    }
  }

  /** One component's contribution: itself when present and non-empty, else nothing. */
  function KeptOne(x: Option<string>): seq<string> {
    if x.Some? && x.value != "" then [x.value] else []
  }

  /** One step of the filter: the first component's contribution, then the rest. */
  lemma KeptCons(parts: seq<Option<string>>)
    requires parts != []
    ensures Kept(parts) == KeptOne(parts[0]) + Kept(parts[1..])
  {
  }

  /** The derived address takes line 1, line 2, city, state, ZIP code and country in
      that order, each only when present and non-empty. */
  lemma KeptComponents(a: Address)
    ensures Kept(Components(a)) ==
      KeptOne(Some(a.addressLine1)) + KeptOne(a.addressLine2) + KeptOne(Some(a.city))
      + KeptOne(Some(a.state)) + KeptOne(Some(a.zipCode)) + KeptOne(Some(a.country))
  {
    KeptSix(Some(a.addressLine1), a.addressLine2, Some(a.city), Some(a.state), Some(a.zipCode), Some(a.country));
  }

  /** The filter on six components, one step at a time. */
  lemma {:induction false} KeptSix(x0: Option<string>, x1: Option<string>, x2: Option<string>,
                                   x3: Option<string>, x4: Option<string>, x5: Option<string>)
    ensures Kept([x0, x1, x2, x3, x4, x5]) ==
      KeptOne(x0) + (KeptOne(x1) + (KeptOne(x2) + (KeptOne(x3) + (KeptOne(x4) + KeptOne(x5)))))
  {
    assert Kept([x5]) == KeptOne(x5) by {
      KeptCons([x5]);
      assert [x5][1..] == [];
    }
    assert Kept([x4, x5]) == KeptOne(x4) + Kept([x5]) by {
      KeptCons([x4, x5]);
      assert [x4, x5][1..] == [x5];
    }
    assert Kept([x3, x4, x5]) == KeptOne(x3) + Kept([x4, x5]) by {
      KeptCons([x3, x4, x5]);
      assert [x3, x4, x5][1..] == [x4, x5];
    }
    assert Kept([x2, x3, x4, x5]) == KeptOne(x2) + Kept([x3, x4, x5]) by {
      KeptCons([x2, x3, x4, x5]);
      assert [x2, x3, x4, x5][1..] == [x3, x4, x5];
    }
    assert Kept([x1, x2, x3, x4, x5]) == KeptOne(x1) + Kept([x2, x3, x4, x5]) by {
      KeptCons([x1, x2, x3, x4, x5]);
      assert [x1, x2, x3, x4, x5][1..] == [x2, x3, x4, x5];
    }
    assert Kept([x0, x1, x2, x3, x4, x5]) == KeptOne(x0) + Kept([x1, x2, x3, x4, x5]) by {
      KeptCons([x0, x1, x2, x3, x4, x5]);
      assert [x0, x1, x2, x3, x4, x5][1..] == [x1, x2, x3, x4, x5];
    }
  }

  /** Absent and empty components leave no trace: without line 2 (absent or empty)
      and with an empty country, the derived address has the four required parts. */
  lemma AddressStringDropsEmptyComponents(a: Address)
    requires WellFormedAddress(a)
    requires a.addressLine2.None? || a.addressLine2.value == ""
    requires a.country == ""
    ensures AddressString(a) == a.addressLine1 + ", " + a.city + ", " + a.state + ", " + a.zipCode
  {
    KeptComponents(a);
    assert Kept(Components(a)) == [a.addressLine1, a.city, a.state, a.zipCode];
    JoinFour(a.addressLine1, a.city, a.state, a.zipCode);
  }

  /** With every component present and non-empty, all six appear, separated by ", ". */
  lemma AddressStringAllComponents(a: Address)
    requires WellFormedAddress(a)
    requires a.addressLine2.Some? && a.addressLine2.value != "" && a.country != ""
    ensures AddressString(a) == a.addressLine1 + ", " + a.addressLine2.value + ", " + a.city + ", "
                                + a.state + ", " + a.zipCode + ", " + a.country
  {
    KeptComponents(a);
    var parts := [a.addressLine1, a.addressLine2.value, a.city, a.state, a.zipCode, a.country];
    assert Kept(Components(a)) == parts;
    assert parts[1..] == [a.addressLine2.value, a.city, a.state, a.zipCode, a.country];
    JoinFive(a.addressLine2.value, a.city, a.state, a.zipCode, a.country);
  }

  lemma JoinFour(p: string, q: string, r: string, s: string)
    ensures Join([p, q, r, s]) == p + ", " + q + ", " + r + ", " + s
  {
    assert [p, q, r, s][1..] == [q, r, s];
    assert [q, r, s][1..] == [r, s];
    assert [r, s][1..] == [s];
    assert Join([s]) == s;
    assert Join([r, s]) == r + ", " + s;
    assert Join([q, r, s]) == q + ", " + (r + ", " + s);
  }

  lemma JoinFive(p: string, q: string, r: string, s: string, t: string)
    ensures Join([p, q, r, s, t]) == p + ", " + q + ", " + r + ", " + s + ", " + t
  {
    assert [p, q, r, s, t][1..] == [q, r, s, t];
    JoinFour(q, r, s, t);
  }

}
