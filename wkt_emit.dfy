/** How the WKT writer lays out the children of one open geometry or ring
    as they arrive: the first child opens the list, later children are
    preceded by ", ", and the close prints ")" or, when nothing arrived,
    EMPTY. A geometry's list is preceded by a space (it follows the keyword);
    a ring's is not (it follows the "(" or ", " its polygon printed). */
module WktEmit {
  import opened WktText

  /** The space in front of a geometry's list; nothing in front of a ring's. */
  function Lead(isGeom: bool): string
  {
    if isGeom then " " else ""
  }

  /** What precedes a child, given how many children came before it. */
  function Sep(lead: string, before: nat): string
  {
    if before == 0 then lead + "(" else ", "
  }

  /** What closes a list that received `count` children. */
  function Closer(lead: string, count: nat): string
  {
    if count == 0 then lead + "EMPTY" else ")"
  }

  /** The text written for the children `parts`, when `before` children had
      already been written to the same list. */
  function Emit(lead: string, before: nat, parts: seq<string>): string
    decreases |parts|
  {
    if parts == [] then "" else Sep(lead, before) + parts[0] + Emit(lead, before + 1, parts[1..])
  }

  /** Writing children in two calls writes what one call would. */
  lemma {:induction false} EmitAppend(lead: string, before: nat, a: seq<string>, b: seq<string>)
    ensures Emit(lead, before, a + b) == Emit(lead, before, a) + Emit(lead, before + |a|, b)
    decreases |a|
  {
    if a == [] {
      assert a + b == b;
    } else {
      assert (a + b)[0] == a[0] && (a + b)[1..] == a[1..] + b;
      EmitAppend(lead, before + 1, a[1..], b);
    }
  }

  lemma EmitSnoc(lead: string, before: nat, a: seq<string>, x: string)
    ensures Emit(lead, before, a + [x]) == Emit(lead, before, a) + Sep(lead, before + |a|) + x
  {
    EmitAppend(lead, before, a, [x]);
    assert Emit(lead, before + |a|, [x]) == Sep(lead, before + |a|) + x + Emit(lead, before + |a| + 1, []);
  }

  /** Once one child has been written, the count no longer matters. */
  lemma {:induction false} EmitLater(lead: string, c: nat, d: nat, parts: seq<string>)
    requires c >= 1 && d >= 1
    ensures Emit(lead, c, parts) == Emit(lead, d, parts)
    decreases |parts|
  {
    if parts != [] {
      EmitLater(lead, c + 1, d + 1, parts[1..]);
    }
  }

  /** After the first child, the list is the parts joined with ", ". */
  lemma {:induction false} JoinEmit(lead: string, parts: seq<string>)
    requires |parts| > 0
    ensures Join(", ", parts) == parts[0] + Emit(lead, 1, parts[1..])
    decreases |parts|
  {
    if |parts| > 1 {
      var rest := parts[1..];
      JoinEmit(lead, rest);
      assert rest[1..] == parts[2..];
      EmitLater(lead, 2, 1, parts[2..]);
      calc {
        Join(", ", parts);
        parts[0] + ", " + Join(", ", rest);
        parts[0] + ", " + (rest[0] + Emit(lead, 1, rest[1..]));
        parts[0] + (", " + rest[0] + Emit(lead, 2, rest[1..]));
        parts[0] + Emit(lead, 1, rest);
      }
    }
  }

  /** Opening, writing the children and closing a list gives the lead and
      the parenthesised list of the reference text. */
  lemma EmitClosed(lead: string, parts: seq<string>)
    ensures Emit(lead, 0, parts) + Closer(lead, |parts|) == lead + Parenthesized(parts)
  {
    if parts != [] {
      JoinEmit(lead, parts);
    }
  }
}
