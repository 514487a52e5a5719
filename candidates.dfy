/**
 * The values handed to a constructor, as the callable check sees them, and the
 * pieces of that check every copy of it shares: the `reject` that keeps the
 * values which do not respond to `call`, the `join(', ')` of their renderings,
 * and the sentence the error message is built from.
 */
module Candidates {

  /**
   * An argument of a constructor. `Callable` is a value that responds to
   * `call`; `NotCallable` is any other value, kept only through its `to_s`
   * rendering, which is all the check ever looks at.
   */
  datatype Candidate<C> = Callable(callable: C) | NotCallable(name: string)

  predicate AllCallable<C>(args: seq<Candidate<C>>) {
    forall i :: 0 <= i < |args| ==> args[i].Callable?
  }

  /** The values of an argument list that passes the check, in argument order. */
  function Values<C>(args: seq<Candidate<C>>): (vs: seq<C>)
    requires AllCallable(args)
    ensures |vs| == |args|
    ensures forall i :: 0 <= i < |args| ==> vs[i] == args[i].callable
  {
    if args == [] then [] else [args[0].callable] + Values(args[1..])
  }

  /** `reject { |l| l.respond_to?(:call) }` followed by `map(&:to_s)`. */
  function Offenders<C>(args: seq<Candidate<C>>): (names: seq<string>)
    ensures |names| <= |args|
    ensures names == [] <==> AllCallable(args)
  {
    if args == [] then []
    else (if args[0].NotCallable? then [args[0].name] else []) + Offenders(args[1..])
  }

  /** Filtering distributes over concatenation: the offenders keep their argument order. */
  lemma {:induction false} OffendersAppend<C>(a: seq<Candidate<C>>, b: seq<Candidate<C>>)
    ensures Offenders(a + b) == Offenders(a) + Offenders(b)
  {
    if a == [] {
      assert a + b == b;
    } else {
      var head := if a[0].NotCallable? then [a[0].name] else [];
      assert (a + b)[0] == a[0];
      assert (a + b)[1..] == a[1..] + b;
      assert Offenders(a + b) == head + Offenders(a[1..] + b);
      OffendersAppend(a[1..], b);
      assert Offenders(a) == head + Offenders(a[1..]);
    }
  }

  /** Every offender is named, and every name listed is that of an offender. */
  lemma {:induction false} OffendersExact<C>(args: seq<Candidate<C>>, n: string)
    ensures n in Offenders(args) <==> exists i :: 0 <= i < |args| && args[i] == NotCallable(n)
  {
    if args != [] {
      OffendersExact(args[1..], n);
      if n in Offenders(args[1..]) {
        var i :| 0 <= i < |args[1..]| && args[1..][i] == NotCallable(n);
        assert args[i + 1] == NotCallable(n);
      }
      if exists i :: 0 <= i < |args| && args[i] == NotCallable(n) {
        var i :| 0 <= i < |args| && args[i] == NotCallable(n);
        if i > 0 {
          assert args[1..][i - 1] == NotCallable(n);
        }
      }
    }
  }

  /** A callable argument inserted anywhere changes nothing in the list of offenders. */
  lemma CallableIgnored<C>(a: seq<Candidate<C>>, c: C, b: seq<Candidate<C>>)
    ensures Offenders(a + [Callable(c)] + b) == Offenders(a + b)
  {
    OffendersAppend(a + [Callable(c)], b);
    OffendersAppend(a, [Callable(c)]);
    OffendersAppend(a, b);
  }

  /** A non-callable argument inserted anywhere is named, in its place among the others. */
  lemma NotCallableNamed<C>(a: seq<Candidate<C>>, n: string, b: seq<Candidate<C>>)
    ensures Offenders(a + [NotCallable(n)] + b) == Offenders(a) + [n] + Offenders(b)
  {
    OffendersAppend(a + [NotCallable(n)], b);
    OffendersAppend(a, [NotCallable(n)]);
  }

  /** A sequence is what comes before its i-th element, that element, and what comes after. */
  lemma SplitAt<X>(s: seq<X>, i: nat)
    requires i < |s|
    ensures s == s[..i] + [s[i]] + s[i + 1..]
  {
  }

  /**
   * The name of the i-th argument, when it is not callable, stands in the list
   * exactly after the names of the offenders before it and before those after it.
   */
  lemma OffendersAt<C>(args: seq<Candidate<C>>, i: nat)
    requires i < |args| && args[i].NotCallable?
    ensures Offenders(args) == Offenders(args[..i]) + [args[i].name] + Offenders(args[i + 1..])
  {
    SplitAt(args, i);
    assert args[i] == NotCallable(args[i].name);
    NotCallableNamed(args[..i], args[i].name, args[i + 1..]);
  }

  /** The name of a non-callable argument is the offender whose index counts the offenders before it. */
  lemma OffenderIndex<C>(args: seq<Candidate<C>>, i: nat)
    requires i < |args| && args[i].NotCallable?
    ensures |Offenders(args[..i])| < |Offenders(args)|
    ensures Offenders(args)[|Offenders(args[..i])|] == args[i].name
  {
    OffendersAt(args, i);
  }

  /** Every name in the list of offenders is that of some non-callable argument. */
  lemma {:induction false} OffendersNamed<C>(args: seq<Candidate<C>>)
    ensures forall n :: n in Offenders(args) ==> exists j :: 0 <= j < |args| && args[j] == NotCallable(n)
  {
    forall n | n in Offenders(args)
      ensures exists j :: 0 <= j < |args| && args[j] == NotCallable(n)
    {
      OffendersExact(args, n);
    }
  }

  /** The sum of the lengths of the parts. */
  function TotalLength(parts: seq<string>): (n: nat)
  {
    if parts == [] then 0 else |parts[0]| + TotalLength(parts[1..])
  }

  /** Ruby's `Array#join(sep)` on strings. */
  function Join(parts: seq<string>, sep: string): (s: string)
  {
    if parts == [] then ""
    else if |parts| == 1 then parts[0]
    else parts[0] + sep + Join(parts[1..], sep)
  }

  /**
   * The joined string is as long as all the parts together plus one separator
   * between each two neighbours.
   */
  lemma {:induction false} JoinLength(parts: seq<string>, sep: string)
    ensures |Join(parts, sep)| == TotalLength(parts) + (if parts == [] then 0 else (|parts| - 1) * |sep|)
  {
    if |parts| > 1 {
      JoinLength(parts[1..], sep);
    }
  }

  /** Where the k-th part starts in `Join(parts, sep)`. */
  function Offset(parts: seq<string>, sep: string, k: nat): (o: nat)
    requires k < |parts|
  {
    if k == 0 then 0 else |parts[0]| + |sep| + Offset(parts[1..], sep, k - 1)
  }

  /** A slice inside the left operand of a concatenation. */
  lemma SliceLeft(a: string, b: string, i: nat, j: nat)
    requires i <= j <= |a|
    ensures (a + b)[i..j] == a[i..j]
  {
  }

  /** A slice inside the right operand of a concatenation. */
  lemma SliceRight(a: string, b: string, i: nat, j: nat)
    requires i <= j <= |b|
    ensures (a + b)[|a| + i..|a| + j] == b[i..j]
  {
  }

  /** The joined string holds every part, in order, at its offset. */
  lemma {:induction false} JoinPart(parts: seq<string>, sep: string, k: nat)
    requires k < |parts|
    ensures Offset(parts, sep, k) + |parts[k]| <= |Join(parts, sep)|
    ensures Join(parts, sep)[Offset(parts, sep, k)..Offset(parts, sep, k) + |parts[k]|] == parts[k]
  {
    var s := Join(parts, sep);
    if |parts| == 1 {
      assert s == parts[0] && s[0..|parts[0]|] == s;
    } else {
      var head, rest := parts[0] + sep, Join(parts[1..], sep);
      assert s == head + rest;
      if k == 0 {
        SliceLeft(head, rest, 0, |parts[0]|);
        SliceLeft(parts[0], sep, 0, |parts[0]|);
      } else {
        JoinPart(parts[1..], sep, k - 1);
        assert parts[1..][k - 1] == parts[k];
        var o := Offset(parts[1..], sep, k - 1);
        assert Offset(parts, sep, k) == |head| + o;
        SliceRight(head, rest, o, o + |parts[k]|);
      }
    }
  }

  /** Each part after the first is preceded by the separator. */
  lemma {:induction false} JoinSeparator(parts: seq<string>, sep: string, k: nat)
    requires 0 < k < |parts|
    ensures |sep| <= Offset(parts, sep, k) <= |Join(parts, sep)|
    ensures Join(parts, sep)[Offset(parts, sep, k) - |sep|..Offset(parts, sep, k)] == sep
  {
    JoinPart(parts, sep, k);
    var head, rest := parts[0] + sep, Join(parts[1..], sep);
    assert Join(parts, sep) == head + rest;
    var o := Offset(parts[1..], sep, k - 1);
    assert Offset(parts, sep, k) == |head| + o;
    if k > 1 {
      JoinSeparator(parts[1..], sep, k - 1);
      SliceRight(head, rest, o - |sep|, o);
    } else {
      SliceLeft(head, rest, |parts[0]|, |head|);
      SliceRight(parts[0], sep, 0, |sep|);
    }
  }

  /** Appending one more part adds the separator and that part at the end. */
  lemma {:induction false} JoinSnoc(parts: seq<string>, sep: string, last: string)
    requires parts != []
    ensures Join(parts + [last], sep) == Join(parts, sep) + sep + last
  {
    if |parts| > 1 {
      assert (parts + [last])[1..] == parts[1..] + [last];
      JoinSnoc(parts[1..], sep, last);
    }
  }

  const Separator := ", "

  /** `"Expected #{names.join(', ')} " "to respond to <requirement>"`. */
  function Complaint(names: seq<string>, requirement: string): (msg: string) {
    "Expected " + (Join(names, Separator) + (" to respond to " + requirement))
  }

  /** The message starts with "Expected " and ends with what the check asks of every value. */
  lemma ComplaintShape(names: seq<string>, requirement: string)
    ensures var msg := Complaint(names, requirement);
      |msg| >= 9 + |requirement| && msg[..9] == "Expected " && msg[|msg| - |requirement|..] == requirement
  {
  }

  /** With a single offender the message is just that offender's sentence. */
  lemma ComplaintSingle(name: string, requirement: string)
    ensures Complaint([name], requirement) == "Expected " + name + " to respond to " + requirement
  {
  }

  /** The complaint names each offender, in order, right after "Expected " and the names before it. */
  lemma ComplaintNames(names: seq<string>, requirement: string, k: nat)
    requires k < |names|
    ensures var o := 9 + Offset(names, Separator, k);
      o + |names[k]| <= |Complaint(names, requirement)| &&
      Complaint(names, requirement)[o..o + |names[k]|] == names[k]
  {
    JoinedPart(Complaint(names, requirement), "Expected ", names, Separator, " to respond to " + requirement, k);
  }

  /** A part of a joined list stays in place when text is put around the list. */
  lemma JoinedPart(whole: string, pre: string, parts: seq<string>, sep: string, post: string, k: nat)
    requires whole == pre + (Join(parts, sep) + post)
    requires k < |parts|
    ensures var o := |pre| + Offset(parts, sep, k);
      o + |parts[k]| <= |whole| && whole[o..o + |parts[k]|] == parts[k]
  {
    JoinPart(parts, sep, k);
    InnerSlice(whole, pre, Join(parts, sep), post, Offset(parts, sep, k), |parts[k]|);
  }

  /** A slice of the middle operand of `whole == pre + (mid + post)`. */
  lemma InnerSlice(whole: string, pre: string, mid: string, post: string, o: nat, len: nat)
    requires whole == pre + (mid + post)
    requires o + len <= |mid|
    ensures |pre| + o + len <= |whole|
    ensures whole[|pre| + o..|pre| + o + len] == mid[o..o + len]
  {
    SliceLeft(mid, post, o, o + len);
    SliceRight(pre, mid + post, o, o + len);
  }
}
