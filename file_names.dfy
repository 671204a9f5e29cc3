/**
 * File-name helpers shared by Display.GetFiles and MediaPlayer.GetMediaFiles:
 * the path separator, lower-casing and the extension filter.
 */
module FileNames {

  /** os.sep on the POSIX systems the media player targets. */
  const Sep: char := '/'

  /** str.lower() on one character, for the ASCII letters. */
  function LowerChar(c: char): char
  {
    if 'A' <= c <= 'Z' then (c as int + 32) as char else c
  }

  function Lower(s: string): string
  {
    seq(|s|, i requires 0 <= i < |s| => LowerChar(s[i]))
  }

  predicate EndsWith(s: string, suffix: string)
  {
    |suffix| <= |s| && s[|s| - |suffix|..] == suffix
  }

  /** `True in [name.lower().endswith(e) for e in exts]` */
  predicate HasExtension(name: string, exts: seq<string>)
  {
    exists e :: e in exts && EndsWith(Lower(name), e)
  }

  /** The comprehension filter: the names that carry one of the extensions, in listing order. */
  function FilterByExtension(names: seq<string>, exts: seq<string>): (r: seq<string>)
    ensures |r| <= |names|
    ensures forall x :: x in r <==> x in names && HasExtension(x, exts)
  {
    if names == [] then []
    else if HasExtension(names[0], exts) then [names[0]] + FilterByExtension(names[1..], exts)
    else FilterByExtension(names[1..], exts)
  }

  /** Filtering keeps listing order: filtering a concatenation concatenates the filtered parts. */
  lemma {:induction false} FilterKeepsOrder(a: seq<string>, b: seq<string>, exts: seq<string>)
    ensures FilterByExtension(a + b, exts) == FilterByExtension(a, exts) + FilterByExtension(b, exts)
  {
    if a == [] {
      assert a + b == b;
    } else {
      assert (a + b)[0] == a[0];
      assert (a + b)[1..] == a[1..] + b;
      FilterKeepsOrder(a[1..], b, exts);
    }
  }

  /** A listing whose every name matches passes through unchanged. */
  lemma {:induction false} FilterKeepsMatchingListing(names: seq<string>, exts: seq<string>)
    requires forall i :: 0 <= i < |names| ==> HasExtension(names[i], exts)
    ensures FilterByExtension(names, exts) == names
  {
    if names != [] {
      FilterKeepsMatchingListing(names[1..], exts);
    }
  }
}
