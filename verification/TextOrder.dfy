/** Go's order of strings, in which bucket listings come, and what it makes of printed keys. */
module TextOrder {
  import opened Strings
  import opened Revisions

  predicate Before(a: string, b: string) {
    |b| > 0 && (|a| == 0 || a[0] < b[0] || (a[0] == b[0] && Before(a[1..], b[1..])))
  }

  lemma {:induction false} BeforeIsTotal(a: string, b: string)
    ensures Before(a, b) || Before(b, a) || a == b
    ensures !(Before(a, b) && Before(b, a)) && !Before(a, a)
  {
    if |a| > 0 && |b| > 0 {
      BeforeIsTotal(a[1..], b[1..]);
      assert a == [a[0]] + a[1..] && b == [b[0]] + b[1..];
    }
    if |a| > 0 {
      BeforeIsTotal(a[1..], a[1..]);
    }
  }

  lemma {:induction false} CommonPrefix(prefix: string, a: string, b: string)
    ensures Before(prefix + a, prefix + b) <==> Before(a, b)
  {
    if prefix == "" {
      assert prefix + a == a && prefix + b == b;
    } else {
      CommonPrefix(prefix[1..], a, b);
      assert (prefix + a)[1..] == prefix[1..] + a && (prefix + b)[1..] == prefix[1..] + b;
    }
  }

  /** Different numbers, each followed by a separator that comes before all digits, compare like the numbers. */
  lemma {:induction false} NumbersThen(a: string, b: string, x: string, y: string)
    requires a != b && forall c :: c in a + b ==> IsDigit(c)
    requires |x| > 0 && |y| > 0 && x[0] < '0' && y[0] < '0'
    ensures Before(a + x, b + y) <==> Before(a, b)
  {
    assert |a| > 0 ==> a[0] in a + b && (a + x)[1..] == a[1..] + x;
    assert |b| > 0 ==> b[0] in a + b && (b + y)[1..] == b[1..] + y;
    if |a| > 0 && |b| > 0 && a[0] == b[0] {
      assert a == [a[0]] + a[1..] && b == [b[0]] + b[1..];
      NumbersThen(a[1..], b[1..], x, y);
    } else {
      assert |a| == 0 ==> a + x == x;
      assert |b| == 0 ==> b + y == y;
    }
  }

  lemma {:induction false} AppendOne(a: string, b: string, c: char, d: char)
    requires |a| == |b|
    ensures Before(a + [c], b + [d]) <==> Before(a, b) || (a == b && c < d)
  {
    if |a| == 0 {
      assert a + [c] == [c] && b + [d] == [d];
    } else {
      AppendOne(a[1..], b[1..], c, d);
      assert a == [a[0]] + a[1..] && b == [b[0]] + b[1..];
      assert (a + [c])[1..] == a[1..] + [c] && (b + [d])[1..] == b[1..] + [d];
    }
  }

  lemma DigitsInjective(m: nat, n: nat)
    ensures Digits(m) == Digits(n) <==> m == n
  {
    ParsePrintedDigits(m);
    ParsePrintedDigits(n);
  }

  /** Numbers printed with equally many digits are in textual order exactly when they are in order. */
  lemma {:induction false} EquallyManyDigits(m: nat, n: nat)
    requires |Digits(m)| == |Digits(n)|
    ensures Before(Digits(m), Digits(n)) <==> m < n
  {
    if m >= 10 && n >= 10 {
      EquallyManyDigits(m / 10, n / 10);
      DigitsInjective(m / 10, n / 10);
      AppendOne(Digits(m / 10), Digits(n / 10), DigitChar(m % 10), DigitChar(n % 10));
    } else {
      assert m < 10 && n < 10;
    }
  }

  lemma {:induction false} DigitsGrow(m: nat, n: nat)
    requires m <= n
    ensures |Digits(m)| <= |Digits(n)|
  {
    if m >= 10 {
      DigitsGrow(m / 10, n / 10);
    }
  }

  // ---- keys ----

  /** Of one object's keys, which comes first, by what is printed in their names. */
  predicate PrintsBefore(r: Revision, q: Revision)
    requires r.WellFormed() && q.WellFormed()
  {
    || Before(Digits(r.resourceVersion), Digits(q.resourceVersion))
    || (r.resourceVersion == q.resourceVersion &&
        (Before(Digits(r.Unix()), Digits(q.Unix())) ||
         (r.Unix() == q.Unix() && !r.deleted && q.deleted)))
  }

  /** An object's keys are in textual order by version, then second, then deletion, the numbers as printed. */
  lemma KeyOrder(r: Revision, q: Revision)
    requires r.WellFormed() && q.WellFormed() && SameObject(r, q)
    ensures Before(r.Key(), q.Key()) <==> PrintsBefore(r, q)
  {
    KeyIsJoin(r);
    KeyIsJoin(q);
    ResourceKeyInjective(r, q);
    NamesBefore(r, q);
    hide Revision.Key, Revision.ResourceKey, Revision.RevisionKey, Revision.WellFormed, PrintsBefore;
    CommonPrefix(r.ResourceKey() + "/", r.RevisionKey(), q.RevisionKey());
  }

  lemma NamesBefore(r: Revision, q: Revision)
    requires r.WellFormed() && q.WellFormed()
    ensures Before(r.RevisionKey(), q.RevisionKey()) <==> PrintsBefore(r, q)
  {
    hide Revision.Shaped, Revision.CoreGroupOnlyV1, Digits, Extension, Before;
    var v, w := Digits(r.resourceVersion), Digits(q.resourceVersion);
    var s, t := Digits(r.Unix()) + Extension(r.deleted), Digits(q.Unix()) + Extension(q.deleted);
    assert r.RevisionKey() == v + ("-" + s);
    assert q.RevisionKey() == w + ("-" + t);
    DigitsInjective(r.resourceVersion, q.resourceVersion);
    BeforeIsTotal(v, v);
    TailsBefore(r, q);
    hide Revision.RevisionKey, Revision.WellFormed;
    if v == w {
      CommonPrefix(v, "-" + s, "-" + t);
      CommonPrefix("-", s, t);
    } else {
      NumbersThen(v, w, "-" + s, "-" + t);
    }
  }

  lemma TailsBefore(r: Revision, q: Revision)
    requires r.WellFormed() && q.WellFormed()
    ensures Before(Digits(r.Unix()) + Extension(r.deleted), Digits(q.Unix()) + Extension(q.deleted)) <==>
            Before(Digits(r.Unix()), Digits(q.Unix())) || (r.Unix() == q.Unix() && !r.deleted && q.deleted)
  {
    var s, t := Digits(r.Unix()), Digits(q.Unix());
    DigitsInjective(r.Unix(), q.Unix());
    BeforeIsTotal(s, s);
    ExtensionsBefore(r.deleted, q.deleted);
    ExtensionChars(r.deleted);
    ExtensionChars(q.deleted);
    hide Digits, Extension, Revision.RevisionKey, Revision.WellFormed, Before;
    if s == t {
      CommonPrefix(s, Extension(r.deleted), Extension(q.deleted));
    } else {
      NumbersThen(s, t, Extension(r.deleted), Extension(q.deleted));
    }
  }

  lemma ExtensionsBefore(a: bool, b: bool)
    ensures Before(Extension(a), Extension(b)) <==> !a && b
  {
    BeforeIsTotal(Extension(a), Extension(a));
    CommonPrefix(".json", "", ".deleted");
    CommonPrefix(".json", ".deleted", "");
    assert ".json" + "" == ".json" && ".json" + ".deleted" == ".json.deleted";
  }
}
