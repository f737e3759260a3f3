/**
 * The clean-up `parse_amazon` applies to the text of the price tag before
 * converting it to a number: every pound sign is deleted, then every comma
 * (thousands separator) is deleted.
 */
module PriceText {
  import opened Wrappers

  const Pound: char := '£'
  const Comma: char := ','

  /** Python's `s.replace(c, "")` for a one-character `c`. */
  function Delete(s: string, c: char): (r: string)
    ensures forall x :: x in r <==> x in s && x != c
    ensures |r| <= |s|
    ensures forall x :: x != c ==> multiset(r)[x] == multiset(s)[x]
    ensures c !in s ==> r == s
  {
    if s == [] then []
    else
      var rest := Delete(s[1..], c);
      assert s == [s[0]] + s[1..];
      if s[0] == c then rest else [s[0]] + rest
  }

  /** A character the clean-up keeps. */
  predicate Kept(x: char) { x != Pound && x != Comma }

  /** Line 19's two replacements: every pound sign deleted, then every
      comma. */
  function Clean(s: string): (r: string)
    ensures Pound !in r && Comma !in r
    ensures forall x :: Kept(x) ==> multiset(r)[x] == multiset(s)[x]
  {
    Delete(Delete(s, Pound), Comma)
  }

  /** A one-pass reference for the clean-up: walk the text once, left to
      right, keeping each character that is neither `£` nor `,`. */
  function KeepKept(s: string): (r: string)
  {
    if s == [] then [] else (if Kept(s[0]) then [s[0]] else []) + KeepKept(s[1..])
  }

  /** Deleting one character distributes over concatenation. */
  lemma {:induction false} DeleteAppend(a: string, b: string, c: char)
    ensures Delete(a + b, c) == Delete(a, c) + Delete(b, c)
  {
    if a == [] {
      assert a + b == b;
    } else {
      assert (a + b)[1..] == a[1..] + b;
      DeleteAppend(a[1..], b, c);
    }
  }

  /** The two `replace` passes delete exactly the characters the one-pass
      filter drops and keep every other character, in its original order. */
  lemma {:induction false} CleanIsFilter(s: string)
    ensures Clean(s) == KeepKept(s)
  {
    if s != [] {
      assert s == [s[0]] + s[1..];
      DeleteAppend([s[0]], s[1..], Pound);
      DeleteAppend(Delete([s[0]], Pound), Delete(s[1..], Pound), Comma);
      CleanIsFilter(s[1..]);
    }
  }

  /** Cleaning works piecewise, so it never reorders or merges characters
      across the boundary of two pieces of text. */
  lemma CleanAppend(a: string, b: string)
    ensures Clean(a + b) == Clean(a) + Clean(b)
  {
    DeleteAppend(a, b, Pound);
    DeleteAppend(Delete(a, Pound), Delete(b, Pound), Comma);
  }

  /** Text without a pound sign or comma comes through unchanged, so
      cleaning twice is cleaning once. */
  lemma CleanIdempotent(s: string)
    ensures Clean(Clean(s)) == Clean(s)
  {
  }

  /** Line 19: no price tag gives no price text; a tag gives its cleaned
      text (which `float` then converts). */
  function TagText(tag: Option<string>): (r: Option<string>)
    ensures r.None? <==> tag.None?
    ensures r.Some? ==> Pound !in r.value && Comma !in r.value && |r.value| <= |tag.value|
    ensures r.Some? ==> r.value == KeepKept(tag.value)
  {
    if tag.Some? then CleanIsFilter(tag.value); Some(Clean(tag.value)) else None
  }
}
