/** The few string operations of Python that the bot relies on. */
module Strings {

  /** `s.startswith(prefix)`. */
  predicate StartsWith(s: string, prefix: string)
  {
    |prefix| <= |s| && s[..|prefix|] == prefix
  }

  /** `sep.join(parts)`: the parts with one `sep` between neighbours and none at either end. */
  function Join(sep: string, parts: seq<string>): string
  {
    if parts == [] then ""
    else if |parts| == 1 then parts[0]
    else parts[0] + sep + Join(sep, parts[1..])
  }

  /** `template.format(arg)` for a template with one positional `{}` placeholder:
      the first `{}` is replaced by `arg`; a template without one is returned as it is. */
  function FormatOne(template: string, arg: string): string
  {
    if |template| < 2 then template
    else if template[0] == '{' && template[1] == '}' then arg + template[2..]
    else [template[0]] + FormatOne(template[1..], arg)
  }

  /** The index of the last slash in `s`, or -1 when it has none. */
  function LastSlash(s: string): (r: int)
    ensures -1 <= r < |s|
    ensures r >= 0 ==> s[r] == '/'
    ensures forall k :: r < k < |s| ==> s[k] != '/'
    decreases |s|
  {
    if s == [] then -1
    else if s[|s| - 1] == '/' then |s| - 1
    else LastSlash(s[..|s| - 1])
  }

  /** `s.split("/")[-1]`: the part of `s` after its last slash, or all of `s` when it has none. */
  function LastSegment(s: string): (r: string)
    ensures forall k :: 0 <= k < |r| ==> r[k] != '/'
    ensures |r| <= |s| && s[|s| - |r|..] == r
    ensures |r| < |s| ==> s[|s| - |r| - 1] == '/'
  {
    s[LastSlash(s) + 1..]
  }

  /** The segment after the last slash is determined by the split point alone. */
  lemma {:induction false} LastSegmentAfterSlash(head: string, tail: string)
    requires forall k :: 0 <= k < |tail| ==> tail[k] != '/'
    ensures LastSegment(head + "/" + tail) == tail
  {
    var s := head + "/" + tail;
    assert s[|head|] == '/';
    assert forall k :: |head| < k < |s| ==> s[k] == tail[k - |head| - 1];
    assert LastSlash(s) == |head|;
    assert s[|head| + 1..] == tail;
  }
}
