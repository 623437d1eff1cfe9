/**
 * The address string and the domain the pipeline extracts from it with
 * `email.split("@")[1]`: the text after the first '@', up to the next '@'
 * or the end, and nothing at all when the address has no '@'.
 */
module Address {
  import opened Wrappers

  const At: char := '@'

  /** The number of '@' characters in `s`. */
  function Occurrences(s: string): (n: nat)
    ensures n == 0 <==> At !in s
    ensures n <= |s|
  {
    if s == [] then 0 else (if s[0] == At then 1 else 0) + Occurrences(s[1..])
  }

  /**
   * The segments of `s` between its '@' characters, in order, as JavaScript's
   * `s.split("@")` returns them: one more segment than there are '@'s, none
   * of them holding an '@', empty segments kept.
   */
  function Split(s: string): (parts: seq<string>)
    ensures |parts| == Occurrences(s) + 1
    ensures forall i :: 0 <= i < |parts| ==> At !in parts[i]
  {
    if s == [] then [[]]
    else
      var rest := Split(s[1..]);
      if s[0] == At then [[]] + rest
      else [[s[0]] + rest[0]] + rest[1..]
  }

  /** The segments glued back together with '@' between neighbours. */
  function Join(parts: seq<string>): (s: string)
    requires |parts| >= 1
  {
    if |parts| == 1 then parts[0] else parts[0] + [At] + Join(parts[1..])
  }

  /** Splitting loses nothing: gluing the segments back gives the address. */
  lemma {:induction false} JoinSplit(s: string)
    ensures Join(Split(s)) == s
  {
    if s != [] {
      var rest := Split(s[1..]);
      JoinSplit(s[1..]);
      if s[0] == At {
        assert Split(s) == [[]] + rest;
        assert Split(s)[1..] == rest;
      } else if |rest| > 1 {
        assert Split(s)[1..] == rest[1..];
        assert Join(rest) == rest[0] + [At] + Join(rest[1..]);
        assert [s[0]] + s[1..] == s;
      } else {
        assert [s[0]] + s[1..] == s;
      }
    }
  }

  /** A prefix free of '@' sticks to the front of the first segment. */
  lemma {:induction false} SplitPrefix(w: string, t: string)
    requires At !in w
    ensures Split(w + t) == [w + Split(t)[0]] + Split(t)[1..]
  {
    if w != [] {
      assert (w + t)[1..] == w[1..] + t;
      SplitPrefix(w[1..], t);
      assert [w[0]] + (w[1..] + Split(t)[0]) == w + Split(t)[0];
    } else {
      var parts := Split(t);
      assert w + t == t && w + parts[0] == parts[0];
      assert [parts[0]] + parts[1..] == parts;
    }
  }

  /** Gluing segments free of '@' and splitting again gives back the segments. */
  lemma {:induction false} SplitJoin(parts: seq<string>)
    requires |parts| >= 1
    requires forall i :: 0 <= i < |parts| ==> At !in parts[i]
    ensures Split(Join(parts)) == parts
  {
    if |parts| == 1 {
      SplitPrefix(parts[0], []);
      assert parts[0] + [] == parts[0];
    } else {
      var tail := Join(parts[1..]);
      SplitJoin(parts[1..]);
      SplitPrefix(parts[0], [At] + tail);
      assert ([At] + tail)[1..] == tail;
      assert parts[0] + [At] + tail == parts[0] + ([At] + tail);
      assert Split([At] + tail) == [[]] + parts[1..];
      assert parts[0] + [] == parts[0];
      assert [parts[0]] + parts[1..] == parts;
    }
  }

  /**
   * The domain of an address: the second '@'-segment, or None (the source's
   * `undefined`) when the address has no '@' at all.
   */
  function DomainOf(email: string): (d: Option<string>)
    ensures d.None? <==> At !in email
    ensures d.Some? ==> At !in d.value
  {
    var parts := Split(email);
    if |parts| >= 2 then Some(parts[1]) else None
  }

  /**
   * The domain is exactly the text between the first '@' and the next '@'
   * (or the end of the address).
   */
  lemma {:induction false} DomainOfSegment(local: string, domain: string, rest: string)
    requires At !in local && At !in domain
    requires rest == [] || rest[0] == At
    ensures DomainOf(local + [At] + domain + rest) == Some(domain)
  {
    var x := domain + rest;
    assert local + [At] + domain + rest == local + ([At] + x);
    SplitPrefix(local, [At] + x);
    assert ([At] + x)[1..] == x;
    assert Split([At] + x) == [[]] + Split(x);
    assert local + [] == local;
    SplitPrefix(domain, rest);
    if rest != [] {
      assert Split(rest) == [[]] + Split(rest[1..]);
    }
    assert Split(rest)[0] == [];
    assert domain + [] == domain;
  }
}
