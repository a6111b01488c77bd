/**
 * The small helpers of src/lib/index.ts: unique ids, host-name
 * normalisation, the e-mail check, HTML stripping, the in-place shuffle and
 * the manual legacy date parser `parseLocaleDateString`.
 */
module Utils {
  import opened Wrappers
  import opened Text
  import opened Sessions

  // ---------------------------------------------------------------- ids

  /** `generateUniqueId`: the instant, a dash and the random draw. */
  function GenerateUniqueId(date: Instant, draw: Draw): (id: string)
    ensures date >= 0 ==> id == NatToString(date) + "-" + NatToString(draw)
  {
    IntToString(date) + "-" + IntToString(draw)
  }

  /** For a non-negative instant the id splits at its dash into the instant
      and a draw below 1000, both read back by `parseInt`. */
  lemma IdParts(date: Instant, draw: Draw)
    requires date >= 0
    ensures var parts := Split(GenerateUniqueId(date, draw), '-');
      && |parts| == 2
      && AllDigits(parts[0]) && DigitsValue(parts[0]) == date
      && AllDigits(parts[1]) && DigitsValue(parts[1]) == draw < 1000
  {
    var a, b := NatToString(date), NatToString(draw);
    assert '-' !in a && '-' !in b;
    assert Join([a, b], "-") == a + "-" + b;
    SplitJoin([a, b], '-');
    DigitsValueOfNatToString(date);
    DigitsValueOfNatToString(draw);
  }

  // ---------------------------------------------------------- host names

  predicate MatchesAt(s: string, i: nat, p: string) {
    i + |p| <= |s| && s[i..i + |p|] == p
  }

  predicate HasSuffix(s: string, p: string) {
    |p| <= |s| && s[|s| - |p|..] == p
  }

  function DropDevPrefix(host: string): string {
    if MatchesAt(host, 0, "dev.") then host[4..] else host
  }

  function DropLocalSuffix(s: string): string {
    if HasSuffix(s, ".localhost") then s[..|s| - 10]
    else if HasSuffix(s, ".svelte") then s[..|s| - 7]
    else s
  }

  /** `normaliseHostname`: a leading `dev.` and then one trailing `.localhost`
      or `.svelte` removed. */
  function NormaliseHostname(host: string): (r: string)
    ensures |r| <= |host|
  {
    DropLocalSuffix(DropDevPrefix(host))
  }

  /**
   * The regex engine's reading of `host.replace(/^dev\.|\.localhost$|\.svelte$/g, '')`:
   * scanning from position `i`, the alternatives are tried in order at each
   * position (`^` only at position 0, `$` only at the end), a match is
   * deleted and the scan resumes after it, any other character is kept.
   */
  function RegexReplace(s: string, i: nat): string
    decreases |s| - i
  {
    if i >= |s| then ""
    else if i == 0 && MatchesAt(s, 0, "dev.") then RegexReplace(s, 4)
    else if MatchesAt(s, i, ".localhost") && i + 10 == |s| then ""
    else if MatchesAt(s, i, ".svelte") && i + 7 == |s| then ""
    else [s[i]] + RegexReplace(s, i + 1)
  }

  /** Dropping the first character keeps a proper suffix. */
  lemma HasSuffixTail(t: string, p: string)
    requires |t| >= 1
    ensures |t| > |p| ==> (HasSuffix(t, p) <==> HasSuffix(t[1..], p))
    ensures |t| <= |p| ==> !HasSuffix(t[1..], p)
  {
    if |t| > |p| {
      assert t[|t| - |p|..] == t[1..][|t| - 1 - |p|..];
    }
  }

  /** Away from the two literal suffixes themselves, suffix removal commutes
      with keeping the first character. */
  lemma DropLocalSuffixCons(t: string)
    requires |t| >= 1 && t != ".localhost" && t != ".svelte"
    ensures DropLocalSuffix(t) == [t[0]] + DropLocalSuffix(t[1..])
  {
    HasSuffixTail(t, ".localhost");
    HasSuffixTail(t, ".svelte");
    if HasSuffix(t, ".localhost") {
      assert |t| > 10;
      assert t[1..][..|t| - 11] == t[1..|t| - 10];
      assert t[..|t| - 10] == [t[0]] + t[1..|t| - 10];
    } else if HasSuffix(t, ".svelte") {
      assert |t| > 7;
      assert t[1..][..|t| - 8] == t[1..|t| - 7];
      assert t[..|t| - 7] == [t[0]] + t[1..|t| - 7];
    } else {
      assert t == [t[0]] + t[1..];
    }
  }

  /** A match of `p` that ends the string is the whole remaining suffix. */
  lemma MatchesAtEnd(s: string, i: nat, p: string)
    requires i <= |s|
    ensures (MatchesAt(s, i, p) && i + |p| == |s|) <==> s[i..] == p
  {
  }

  lemma {:induction false} RegexReplaceTail(s: string, i: nat)
    requires i <= |s|
    requires i > 0 || !MatchesAt(s, 0, "dev.")
    ensures RegexReplace(s, i) == DropLocalSuffix(s[i..])
    decreases |s| - i
  {
    if i < |s| {
      var t := s[i..];
      MatchesAtEnd(s, i, ".localhost");
      MatchesAtEnd(s, i, ".svelte");
      if t != ".localhost" && t != ".svelte" {
        RegexReplaceTail(s, i + 1);
        assert s[i + 1..] == t[1..];
        DropLocalSuffixCons(t);
        assert RegexReplace(s, i) == [s[i]] + RegexReplace(s, i + 1);
      }
    }
  }

  /** The prefix-then-suffix reading agrees with the global regex replace on every host. */
  lemma NormaliseHostnameIsRegexReplace(host: string)
    ensures NormaliseHostname(host) == RegexReplace(host, 0)
  {
    if MatchesAt(host, 0, "dev.") {
      if |host| > 0 {
        RegexReplaceTail(host, 4);
      }
    } else {
      RegexReplaceTail(host, 0);
      assert host[0..] == host;
    }
  }

  // --------------------------------------------------------------- e-mail

  /** The class `[^@\s]`. */
  predicate AddressChar(c: char) {
    c != '@' && !IsSpace(c)
  }

  /** A non-empty run of `[^@\s]` over `s[lo..hi]`. */
  predicate Run(s: string, lo: nat, hi: nat) {
    lo < hi <= |s| && forall k :: lo <= k < hi ==> AddressChar(s[k])
  }

  /** A non-empty run of `[^@\s]` right after the character at `p`, up to `hi`. */
  predicate RunAfter(s: string, p: nat, hi: nat) {
    Run(s, p + 1, hi)
  }

  /** The regex `/^[^@\s]+@[^@\s]+\.[^@\s]+/` matches at the start of `s`
      (it has no end anchor, so anything may follow the match): a run ending
      at an `@`, a run ending at a `.`, and a run. */
  ghost predicate EmailRegexMatches(s: string) {
    exists k: nat :: Run(s, 0, k) && k < |s| && s[k] == '@' && DomainAfter(s, k)
  }

  /** `[^@\s]+\.[^@\s]+` matches right after the `@` at `k`. */
  ghost predicate DomainAfter(s: string, k: nat) {
    exists m: nat :: RunAfter(s, k, m) && m < |s| && s[m] == '.' && TopLevelAfter(s, m)
  }

  /** `[^@\s]+` matches right after the `.` at `m`. */
  ghost predicate TopLevelAfter(s: string, m: nat) {
    exists e: nat :: RunAfter(s, m, e)
  }

  /** The first index at or after `i` that is not an address character. */
  function RunEnd(s: string, i: nat): (j: nat)
    requires i <= |s|
    ensures i <= j <= |s|
    ensures forall k :: i <= k < j ==> AddressChar(s[k])
    ensures j < |s| ==> !AddressChar(s[j])
    decreases |s| - i
  {
    if i < |s| && AddressChar(s[i]) then RunEnd(s, i + 1) else i
  }

  /** `isValidEmail`, computed: the first non-address character is an `@`
      after a non-empty local part, and the run after it has a dot with an
      address character on each side. */
  function IsValidEmail(email: string): bool {
    var k := RunEnd(email, 0);
    0 < k < |email| && email[k] == '@' &&
      var e := RunEnd(email, k + 1);
      exists m :: k + 1 < m < e - 1 && email[m] == '.'
  }

  lemma ValidEmailMatches(email: string)
    requires IsValidEmail(email)
    ensures EmailRegexMatches(email)
  {
    var k := RunEnd(email, 0);
    var e := RunEnd(email, k + 1);
    var m :| k + 1 < m < e - 1 && email[m] == '.';
    assert RunAfter(email, m, m + 2);
    assert RunAfter(email, k, m);
    assert DomainAfter(email, k);
    assert Run(email, 0, k);
  }

  lemma MatchingEmailValid(email: string)
    requires EmailRegexMatches(email)
    ensures IsValidEmail(email)
  {
    var k: nat :| Run(email, 0, k) && k < |email| && email[k] == '@' && DomainAfter(email, k);
    RunReaches(email, 0, k);
    var m: nat :| RunAfter(email, k, m) && m < |email| && email[m] == '.' && TopLevelAfter(email, m);
    var e: nat :| RunAfter(email, m, e);
    RunReaches(email, k + 1, e);
    assert RunEnd(email, 0) == k;
    assert k + 1 < m < RunEnd(email, k + 1) - 1 && email[m] == '.';
  }

  /** A run of address characters from `i` to `hi` is covered by `RunEnd`. */
  lemma {:induction false} RunReaches(s: string, i: nat, hi: nat)
    requires i <= hi <= |s| && forall k :: i <= k < hi ==> AddressChar(s[k])
    ensures RunEnd(s, i) >= hi
    decreases hi - i
  {
    if i < hi {
      RunReaches(s, i + 1, hi);
    }
  }

  /** The computed check accepts exactly the strings the regex matches. */
  lemma IsValidEmailIsRegex(email: string)
    ensures IsValidEmail(email) <==> EmailRegexMatches(email)
  {
    if IsValidEmail(email) {
      ValidEmailMatches(email);
    }
    if EmailRegexMatches(email) {
      MatchingEmailValid(email);
    }
  }

  // ------------------------------------------------------------ stripHtml

  /** The end of the run of non-`>` characters that starts at `i`. */
  function TagEnd(s: string, i: nat): (j: nat)
    requires i <= |s|
    ensures i <= j <= |s|
    ensures forall k :: i <= k < j ==> s[k] != '>'
    ensures j < |s| ==> s[j] == '>'
    decreases |s| - i
  {
    if i < |s| && s[i] != '>' then TagEnd(s, i + 1) else i
  }

  /**
   * `s.replace(/<\/?[^>]+(>|$)/g, '')` on `s[i..]`: a `<` followed by at least
   * one non-`>` character starts a match that runs to the next `>` (included)
   * or to the end of the string; the optional `/` is itself a non-`>`
   * character, so it does not change where a match ends.
   */
  function RemoveTags(s: string, i: nat): string
    decreases |s| - i
  {
    if i >= |s| then ""
    else if s[i] == '<' && i + 1 < |s| && s[i + 1] != '>' then
      var e := TagEnd(s, i + 1);
      RemoveTags(s, if e < |s| then e + 1 else |s|)
    else [s[i]] + RemoveTags(s, i + 1)
  }

  /** `stripHtml`. */
  function StripHtml(str: string): (r: string)
    ensures Trimmed(r)
  {
    Trim(RemoveTags(str, 0))
  }

  /** No `<` that could open a tag is left: every kept `<` is the last
      character or is followed by `>`. */
  predicate NoTagOpener(r: string) {
    forall k :: 0 <= k < |r| - 1 && r[k] == '<' ==> r[k + 1] == '>'
  }

  lemma {:induction false} RemoveTagsLeavesNoOpener(s: string, i: nat)
    ensures NoTagOpener(RemoveTags(s, i))
    decreases |s| - i
  {
    if i < |s| {
      if s[i] == '<' && i + 1 < |s| && s[i + 1] != '>' {
        var e := TagEnd(s, i + 1);
        RemoveTagsLeavesNoOpener(s, if e < |s| then e + 1 else |s|);
      } else {
        RemoveTagsLeavesNoOpener(s, i + 1);
        var rest := RemoveTags(s, i + 1);
        if s[i] == '<' && i + 1 < |s| {
          assert rest == [s[i + 1]] + RemoveTags(s, i + 2);
        }
        assert RemoveTags(s, i) == [s[i]] + rest;
      }
    }
  }

  lemma NoTagOpenerSlice(r: string, a: nat, b: nat)
    requires NoTagOpener(r) && a <= b <= |r|
    ensures NoTagOpener(r[a..b])
  {
    var t := r[a..b];
    forall k | 0 <= k < |t| - 1 && t[k] == '<' ensures t[k + 1] == '>' {
      assert t[k] == r[a + k] && t[k + 1] == r[a + k + 1];
    }
  }

  lemma StripHtmlLeavesNoOpener(str: string)
    ensures NoTagOpener(StripHtml(str))
  {
    var r := RemoveTags(str, 0);
    RemoveTagsLeavesNoOpener(str, 0);
    TrimSlice(r);
    var a := |r| - |TrimStart(r)|;
    NoTagOpenerSlice(r, a, a + |Trim(r)|);
  }

  lemma {:induction false} RemoveTagsPlain(s: string, i: nat)
    requires i <= |s|
    requires '<' !in s
    ensures RemoveTags(s, i) == s[i..]
    decreases |s| - i
  {
    if i < |s| {
      RemoveTagsPlain(s, i + 1);
      assert s[i..] == [s[i]] + s[i + 1..];
    }
  }

  /** Text without `<` is only trimmed. */
  lemma StripHtmlPlain(str: string)
    requires '<' !in str
    ensures StripHtml(str) == Trim(str)
  {
    RemoveTagsPlain(str, 0);
    assert str[0..] == str;
  }

  lemma {:induction false} TagEndShift(x: string, q: string, j: nat)
    requires j <= |q|
    ensures TagEnd(x + q, |x| + j) == |x| + TagEnd(q, j)
    decreases |q| - j
  {
    if j < |q| {
      assert (x + q)[|x| + j] == q[j];
      if q[j] != '>' {
        TagEndShift(x, q, j + 1);
      }
    }
  }

  /** What comes before position `|x|` does not affect the removal after it. */
  lemma {:induction false} RemoveTagsShift(x: string, q: string, i: nat)
    requires i <= |q|
    ensures RemoveTags(x + q, |x| + i) == RemoveTags(q, i)
    decreases |q| - i
  {
    if i < |q| {
      if q[i] == '<' && i + 1 < |q| && q[i + 1] != '>' {
        var e := TagEnd(q, i + 1);
        RemoveTagsShift(x, q, if e < |q| then e + 1 else |q|);
        ShiftSkip(x, q, i);
      } else {
        RemoveTagsShift(x, q, i + 1);
        ShiftKeep(x, q, i);
      }
    }
  }

  lemma ShiftKeep(x: string, q: string, i: nat)
    requires i < |q| && !(q[i] == '<' && i + 1 < |q| && q[i + 1] != '>')
    requires RemoveTags(x + q, |x| + i + 1) == RemoveTags(q, i + 1)
    ensures RemoveTags(x + q, |x| + i) == RemoveTags(q, i)
  {
    var s := x + q;
    assert s[|x| + i] == q[i];
    assert i + 1 < |q| ==> s[|x| + i + 1] == q[i + 1];
    RemoveTagsKeep(s, |x| + i);
    RemoveTagsKeep(q, i);
  }

  lemma ShiftSkip(x: string, q: string, i: nat)
    requires i + 1 < |q| && q[i] == '<' && q[i + 1] != '>'
    requires var e := TagEnd(q, i + 1);
      var next := if e < |q| then e + 1 else |q|;
      RemoveTags(x + q, |x| + next) == RemoveTags(q, next)
    ensures RemoveTags(x + q, |x| + i) == RemoveTags(q, i)
  {
    var s := x + q;
    assert s[|x| + i] == q[i] && s[|x| + i + 1] == q[i + 1];
    TagEndShift(x, q, i + 1);
    RemoveTagsSkip(s, |x| + i);
    RemoveTagsSkip(q, i);
  }

  lemma RemoveTagsKeep(s: string, i: nat)
    requires i < |s| && !(s[i] == '<' && i + 1 < |s| && s[i + 1] != '>')
    ensures RemoveTags(s, i) == [s[i]] + RemoveTags(s, i + 1)
  {
  }

  lemma RemoveTagsSkip(s: string, i: nat)
    requires i + 1 < |s| && s[i] == '<' && s[i + 1] != '>'
    ensures var e := TagEnd(s, i + 1);
      RemoveTags(s, i) == RemoveTags(s, if e < |s| then e + 1 else |s|)
  {
  }

  /** A run without `<` is kept as it is. */
  lemma {:induction false} RemoveTagsPlainRun(s: string, i: nat, j: nat)
    requires i <= j <= |s|
    requires forall k :: i <= k < j ==> s[k] != '<'
    ensures RemoveTags(s, i) == s[i..j] + RemoveTags(s, j)
    decreases j - i
  {
    if i < j {
      RemoveTagsKeep(s, i);
      RemoveTagsPlainRun(s, i + 1, j);
      var run, rest := s[i + 1..j], RemoveTags(s, j);
      assert s[i..j] == [s[i]] + run;
      assert [s[i]] + run + rest == [s[i]] + (run + rest);
    }
  }

  /** The text before a tag is kept, the tag is removed, and the removal goes
      on after its `>`. */
  lemma RemoveTagsDropsTag(p: string, t: string, q: string)
    requires '<' !in p && |t| > 0 && '>' !in t
    ensures RemoveTags(p + "<" + t + ">" + q, 0) == p + RemoveTags(q, 0)
  {
    var x := p + "<" + t + ">";
    var s := x + q;
    var n := |p|;
    assert s == p + "<" + t + ">" + q;
    assert s[..n] == p && s[n] == '<' && s[n + 1..n + 1 + |t|] == t && s[n + 1 + |t|] == '>';
    PrefixKept(s, p);
    TagEndAt(s, n + 1, n + 1 + |t|);
    RemoveTagsSkip(s, n);
    RemoveTagsShift(x, q, 0);
  }

  /** A tag left open at the end is removed with everything after its `<`. */
  lemma RemoveTagsDropsOpenTag(p: string, t: string)
    requires '<' !in p && |t| > 0 && '>' !in t
    ensures RemoveTags(p + "<" + t, 0) == p
  {
    var s := p + "<" + t;
    var n := |p|;
    assert s[..n] == p && s[n] == '<' && s[n + 1..] == t;
    PrefixKept(s, p);
    TagEndAt(s, n + 1, |s|);
    RemoveTagsSkip(s, n);
  }

  lemma PrefixKept(s: string, p: string)
    requires |p| <= |s| && s[..|p|] == p && '<' !in p
    ensures RemoveTags(s, 0) == p + RemoveTags(s, |p|)
  {
    assert forall k :: 0 <= k < |p| ==> s[k] == p[k];
    RemoveTagsPlainRun(s, 0, |p|);
    assert s[0..|p|] == p;
  }

  /** The run from `i` ends at `j` when `s[i..j]` has no `>` and `j` is a `>` or the end. */
  lemma TagEndAt(s: string, i: nat, j: nat)
    requires i <= j <= |s| && '>' !in s[i..j] && (j < |s| ==> s[j] == '>')
    ensures TagEnd(s, i) == j
  {
  }

  // -------------------------------------------------------------- shuffle

  /** The indices drawn by `Math.floor(Math.random() * (i + 1))`, one per
      position: `draws[i]` is used at loop iteration `i` and is at most `i`. */
  predicate ValidDraws(draws: seq<nat>, n: nat) {
    |draws| == n && forall k :: 0 <= k < n ==> draws[k] <= k
  }

  function Swap<T>(s: seq<T>, i: nat, j: nat): (r: seq<T>)
    requires i < |s| && j < |s|
    ensures |r| == |s| && r[i] == s[j] && r[j] == s[i]
    ensures forall k :: 0 <= k < |s| && k != i && k != j ==> r[k] == s[k]
  {
    s[i := s[j]][j := s[i]]
  }

  /** The Fisher–Yates iterations `i`, `i - 1`, ..., `1` applied to `s`. */
  function FisherYates<T>(s: seq<T>, draws: seq<nat>, i: int): (r: seq<T>)
    requires ValidDraws(draws, |s|) && i < |s|
    ensures |r| == |s|
    decreases i
  {
    if i <= 0 then s else FisherYates(Swap(s, i, draws[i]), draws, i - 1)
  }

  lemma SwapPermutes<T>(s: seq<T>, i: nat, j: nat)
    requires i < |s| && j < |s|
    ensures multiset(Swap(s, i, j)) == multiset(s)
  {
    if i != j {
      var t := s[i := s[j]];
      assert multiset(t) == multiset(s) - multiset{s[i]} + multiset{s[j]};
      assert multiset(t[j := s[i]]) == multiset(t) - multiset{t[j]} + multiset{s[i]};
    }
  }

  /** The shuffle only rearranges: it is a permutation of its input. */
  lemma {:induction false} FisherYatesPermutes<T>(s: seq<T>, draws: seq<nat>, i: int)
    requires ValidDraws(draws, |s|) && i < |s|
    ensures multiset(FisherYates(s, draws, i)) == multiset(s)
    decreases i
  {
    if i > 0 {
      SwapPermutes(s, i, draws[i]);
      FisherYatesPermutes(Swap(s, i, draws[i]), draws, i - 1);
    }
  }

  /** When every draw picks its own index, nothing moves. */
  lemma {:induction false} FisherYatesIdentity<T>(s: seq<T>, draws: seq<nat>, i: int)
    requires ValidDraws(draws, |s|) && i < |s|
    requires forall k :: 0 <= k < |s| ==> draws[k] == k
    ensures FisherYates(s, draws, i) == s
    decreases i
  {
    if i > 0 {
      assert Swap(s, i, i) == s;
      FisherYatesIdentity(s, draws, i - 1);
    }
  }

  /** `shuffle`: swaps in place from the last index down to 1. */
  method Shuffle<T>(a: array<T>, draws: seq<nat>)
    requires ValidDraws(draws, a.Length)
    modifies a
    ensures a[..] == FisherYates(old(a[..]), draws, a.Length - 1)
    ensures multiset(a[..]) == multiset(old(a[..]))
  {
    var i := a.Length - 1;
    while i > 0
      invariant -1 <= i < a.Length
      invariant a.Length > 0 ==> i >= 0
      invariant FisherYates(a[..], draws, i) == FisherYates(old(a[..]), draws, a.Length - 1)
    {
      var j := draws[i];
      ghost var before := a[..];
      a[i], a[j] := a[j], a[i];
      assert a[..] == Swap(before, i, j);
      i := i - 1;
    }
    FisherYatesPermutes(old(a[..]), draws, a.Length - 1);
  }

  // ------------------------------------------------- parseLocaleDateString

  /** `dateStr.replace(/[^\d]/g, ' ')`. */
  function BlankNonDigits(s: string): (r: string)
    ensures |r| == |s|
    ensures forall i :: 0 <= i < |s| ==> r[i] == (if IsDigit(s[i]) then s[i] else ' ')
  {
    if s == [] then [] else [if IsDigit(s[0]) then s[0] else ' '] + BlankNonDigits(s[1..])
  }

  function NonEmpty(parts: seq<string>): (r: seq<string>)
    ensures forall k :: 0 <= k < |r| ==> r[k] != [] && r[k] in parts
  {
    if parts == [] then []
    else (if parts[0] == [] then [] else [parts[0]]) + NonEmpty(parts[1..])
  }

  /** `cleanDate.split(/\s+/).filter((p) => p.length > 0)`: the only white space
      left after blanking is the space, so splitting on single spaces and
      dropping the empty pieces gives the same parts. */
  function DateParts(dateStr: string): (parts: seq<string>)
    ensures forall k :: 0 <= k < |parts| ==> parts[k] != [] && AllDigits(parts[k])
  {
    var clean := Trim(BlankNonDigits(dateStr));
    var parts := NonEmpty(Split(clean, ' '));
    DatePartsDigits(clean, parts);
    parts
  }

  lemma DatePartsDigits(clean: string, parts: seq<string>)
    requires forall i :: 0 <= i < |clean| ==> IsDigit(clean[i]) || clean[i] == ' '
    requires parts == NonEmpty(Split(clean, ' '))
    ensures forall k :: 0 <= k < |parts| ==> AllDigits(parts[k])
  {
    SplitPieceChars(clean);
  }

  lemma {:induction false} SplitPieceChars(s: string)
    requires forall i :: 0 <= i < |s| ==> IsDigit(s[i]) || s[i] == ' '
    ensures forall k :: 0 <= k < |Split(s, ' ')| ==> AllDigits(Split(s, ' ')[k])
  {
    if s != [] {
      SplitPieceChars(s[1..]);
    }
  }

  /** The `{ day, month, year }` index triples, tried in this order:
      day first (New Zealand), month first (US), year first (ISO). */
  datatype Pattern = Pattern(day: nat, month: nat, year: nat)

  const Patterns: seq<Pattern> := [Pattern(0, 1, 2), Pattern(1, 0, 2), Pattern(2, 1, 0)]

  predicate InRange(year: int, month: int, day: int) {
    1900 <= year <= 2100 && 1 <= month <= 12 && 1 <= day <= 31
  }

  /** The groups of a match of `/(\d{1,2})[^\d](\d{1,2})(?:[^\d](\d{1,2}))?(?:\s*(am|pm))?/i`. */
  datatype TimeMatch = TimeMatch(hours: string, minutes: string, seconds: Option<string>, meridiem: Option<string>)

  /** The end of `\d{1,2}` taken greedily at a digit. */
  function DigitsEnd(s: string, i: nat): (j: nat)
    requires i < |s| && IsDigit(s[i])
    ensures i < j <= i + 2 && j <= |s|
    ensures forall k :: i <= k < j ==> IsDigit(s[k])
  {
    if i + 1 < |s| && IsDigit(s[i + 1]) then i + 2 else i + 1
  }

  function SkipSpaces(s: string, i: nat): (j: nat)
    requires i <= |s|
    ensures i <= j <= |s|
    decreases |s| - i
  {
    if i < |s| && IsSpace(s[i]) then SkipSpaces(s, i + 1) else i
  }

  /**
   * The regex tried at position `p`. If the first group took two digits and a
   * digit follows, backtracking to one digit leaves a digit where `[^\d]` is
   * needed, so there is no match at `p`; once the second group matches, the
   * optional parts can only be taken or skipped, never cause a failure.
   */
  function MatchTimeAt(s: string, p: nat): (m: Option<TimeMatch>)
    ensures m.Some? ==> m.value.hours != [] && AllDigits(m.value.hours)
    ensures m.Some? ==> m.value.minutes != [] && AllDigits(m.value.minutes)
    ensures m.Some? && m.value.seconds.Some? ==>
      m.value.seconds.value != [] && AllDigits(m.value.seconds.value)
  {
    if !(p < |s| && IsDigit(s[p])) then None
    else
      var e1 := DigitsEnd(s, p);
      if !(e1 + 1 < |s| && !IsDigit(s[e1]) && IsDigit(s[e1 + 1])) then None
      else
        var e2 := DigitsEnd(s, e1 + 1);
        var hasSeconds := e2 + 1 < |s| && !IsDigit(s[e2]) && IsDigit(s[e2 + 1]);
        var e3 := if hasSeconds then DigitsEnd(s, e2 + 1) else e2;
        var w := SkipSpaces(s, e3);
        var meridiem :=
          if w + 1 < |s| && (LowerChar(s[w]) == 'a' || LowerChar(s[w]) == 'p') && LowerChar(s[w + 1]) == 'm'
          then Some(s[w..w + 2]) else None;
        Some(TimeMatch(s[p..e1], s[e1 + 1..e2], if hasSeconds then Some(s[e2 + 1..e3]) else None, meridiem))
  }

  /** `String.prototype.match` with a non-global regex: the leftmost match. */
  function FindTime(s: string, p: nat): (m: Option<TimeMatch>)
    ensures m.Some? ==> m.value.hours != [] && AllDigits(m.value.hours)
    ensures m.Some? ==> m.value.minutes != [] && AllDigits(m.value.minutes)
    ensures m.Some? && m.value.seconds.Some? ==>
      m.value.seconds.value != [] && AllDigits(m.value.seconds.value)
    decreases |s| - p
  {
    if p >= |s| then None
    else match MatchTimeAt(s, p)
      case Some(t) => Some(t)
      case None => FindTime(s, p + 1)
  }

  /** The AM/PM correction: 12 PM stays 12, other PM hours gain 12, 12 AM becomes 0. */
  function ApplyMeridiem(hours: int, meridiem: Option<string>): int {
    if meridiem.None? then hours
    else
      var isPM := Lower(meridiem.value) == "pm";
      if isPM && hours != 12 then hours + 12
      else if !isPM && hours == 12 then 0
      else hours
  }

  /** On a 12-hour clock value the correction gives the 24-hour clock: the
      same hour modulo 12, in the afternoon exactly when the marker is PM. */
  lemma MeridiemIs24HourClock(hours: int, meridiem: string)
    requires 1 <= hours <= 12
    requires Lower(meridiem) == "am" || Lower(meridiem) == "pm"
    ensures var h := ApplyMeridiem(hours, Some(meridiem));
      && 0 <= h <= 23
      && h % 12 == hours % 12
      && (h >= 12 <==> Lower(meridiem) == "pm")
  {
  }

  /** The hours, minutes and seconds read from the time string (0 when absent). */
  function TimeOfDay(timeStr: string): (int, int, int) {
    if timeStr == [] then (0, 0, 0)
    else match FindTime(timeStr, 0)
      case None => (0, 0, 0)
      case Some(m) =>
        (ApplyMeridiem(DigitsValue(m.hours), m.meridiem),
         DigitsValue(m.minutes),
         if m.seconds.Some? then DigitsValue(m.seconds.value) else 0)
  }

  /** The local `Date` for pattern `pattern` of the parts: `None` when a
      field is out of range or the runtime rejects the date. */
  function Candidate(rt: Runtime, parts: seq<string>, pattern: Pattern, time: (int, int, int)): Option<Instant>
    requires pattern.day < |parts| && pattern.month < |parts| && pattern.year < |parts|
    requires forall j :: 0 <= j < |parts| ==> AllDigits(parts[j])
  {
    var day := DigitsValue(parts[pattern.day]);
    var month := DigitsValue(parts[pattern.month]);
    var year := DigitsValue(parts[pattern.year]);
    if InRange(year, month, day) then rt.localDate(year, month - 1, day, time.0, time.1, time.2) else None
  }

  /** The patterns from index `k` on: the first valid candidate. */
  function TryPatterns(rt: Runtime, parts: seq<string>, k: nat, time: (int, int, int)): Option<Instant>
    requires |parts| >= 3 && k <= 3
    requires forall j :: 0 <= j < |parts| ==> AllDigits(parts[j])
    decreases 3 - k
  {
    if k == 3 then None
    else
      var c := Candidate(rt, parts, Patterns[k], time);
      if c.Some? then c else TryPatterns(rt, parts, k + 1, time)
  }

  /** What `parseLocaleDateString` returns; `None` is the Invalid Date. */
  function LocaleDate(rt: Runtime, dateStr: string, timeStr: string): Option<Instant> {
    var parts := DateParts(dateStr);
    if |parts| >= 3 then TryPatterns(rt, parts, 0, TimeOfDay(timeStr)) else None
  }

  lemma TryPatternsOrder(rt: Runtime, parts: seq<string>, time: (int, int, int))
    requires |parts| >= 3
    requires forall j :: 0 <= j < |parts| ==> AllDigits(parts[j])
    ensures var dayFirst := Candidate(rt, parts, Patterns[0], time);
      var monthFirst := Candidate(rt, parts, Patterns[1], time);
      var yearFirst := Candidate(rt, parts, Patterns[2], time);
      TryPatterns(rt, parts, 0, time) ==
        if dayFirst.Some? then dayFirst else if monthFirst.Some? then monthFirst else yearFirst
  {
    assert TryPatterns(rt, parts, 3, time) == None;
  }

  /** Day-first wins over month-first, which wins over year-first: the result
      is the first valid candidate in that order, `None` when there is none or
      when the date has fewer than three digit groups. */
  lemma LocaleDatePatternOrder(rt: Runtime, dateStr: string, timeStr: string, parts: seq<string>, time: (int, int, int))
    requires parts == DateParts(dateStr) && time == TimeOfDay(timeStr)
    ensures LocaleDate(rt, dateStr, timeStr) ==
      if |parts| < 3 then None
      else
        var dayFirst := Candidate(rt, parts, Patterns[0], time);
        var monthFirst := Candidate(rt, parts, Patterns[1], time);
        var yearFirst := Candidate(rt, parts, Patterns[2], time);
        if dayFirst.Some? then dayFirst else if monthFirst.Some? then monthFirst else yearFirst
  {
    if |parts| >= 3 {
      TryPatternsOrder(rt, parts, time);
    }
  }

  /** The time-of-day part of `parseLocaleDateString`, run for a pattern whose
      fields are in range. */
  method ParseTime(timeStr: string) returns (hours: int, minutes: int, seconds: int)
    ensures (hours, minutes, seconds) == TimeOfDay(timeStr)
  {
    hours, minutes, seconds := 0, 0, 0;
    if timeStr != [] {
      var timeMatch := FindTime(timeStr, 0);
      if timeMatch.Some? {
        hours := DigitsValue(timeMatch.value.hours);
        minutes := DigitsValue(timeMatch.value.minutes);
        seconds := if timeMatch.value.seconds.Some? then DigitsValue(timeMatch.value.seconds.value) else 0;
        if timeMatch.value.meridiem.Some? {
          var isPM := Lower(timeMatch.value.meridiem.value) == "pm";
          if isPM && hours != 12 { hours := hours + 12; }
          if !isPM && hours == 12 { hours := 0; }
        }
      }
    }
  }

  /** One pass of the pattern loop of `parseLocaleDateString`: the date the
      pattern gives, `None` when a field is out of range or the date is invalid. */
  method TryPattern(rt: Runtime, dateParts: seq<string>, pattern: Pattern, timeStr: string)
    returns (testDate: Option<Instant>)
    requires pattern.day < |dateParts| && pattern.month < |dateParts| && pattern.year < |dateParts|
    requires forall j :: 0 <= j < |dateParts| ==> AllDigits(dateParts[j])
    ensures testDate == Candidate(rt, dateParts, pattern, TimeOfDay(timeStr))
  {
    var day := DigitsValue(dateParts[pattern.day]);
    var month := DigitsValue(dateParts[pattern.month]);
    var year := DigitsValue(dateParts[pattern.year]);
    testDate := None;
    if InRange(year, month, day) {
      var hours, minutes, seconds := ParseTime(timeStr);
      testDate := rt.localDate(year, month - 1, day, hours, minutes, seconds);
    }
  }

  /** The fields of every pattern index one of the first three parts. */
  lemma PatternFields(k: nat)
    requires k < 3
    ensures Patterns[k].day < 3 && Patterns[k].month < 3 && Patterns[k].year < 3
  {
  }

  /** One pass of the pattern loop: the candidate, or the later patterns. */
  lemma TryPatternsStep(rt: Runtime, parts: seq<string>, k: nat, time: (int, int, int), c: Option<Instant>)
    requires |parts| >= 3 && k < 3
    requires forall j :: 0 <= j < |parts| ==> AllDigits(parts[j])
    requires c == Candidate(rt, parts, Patterns[k], time)
    ensures TryPatterns(rt, parts, k, time) == if c.Some? then c else TryPatterns(rt, parts, k + 1, time)
  {
  }

  /** `parseLocaleDateString`. */
  method ParseLocaleDateString(rt: Runtime, dateStr: string, timeStr: string) returns (date: Option<Instant>)
    ensures date == LocaleDate(rt, dateStr, timeStr)
  {
    var dateParts := DateParts(dateStr);
    ghost var time := TimeOfDay(timeStr);
    assert LocaleDate(rt, dateStr, timeStr) == if |dateParts| >= 3 then TryPatterns(rt, dateParts, 0, time) else None;
    if |dateParts| >= 3 {
      ghost var target := TryPatterns(rt, dateParts, 0, time);
      var k := 0;
      while k < 3
        invariant 0 <= k <= 3
        invariant TryPatterns(rt, dateParts, k, time) == target
      {
        PatternFields(k);
        var testDate := TryPattern(rt, dateParts, Patterns[k], timeStr);
        TryPatternsStep(rt, dateParts, k, time, testDate);
        if testDate.Some? {
          return testDate;
        }
        k := k + 1;
      }
      assert TryPatterns(rt, dateParts, 3, time) == None;
    }
    return None;
  }
}
