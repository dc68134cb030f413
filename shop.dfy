/** The shop-domain check `is_valid_shop`: Python's `re.match` of
    `[a-zA-Z0-9][a-zA-Z0-9\-]*\.myshopify\.com[\/]?` against the shop name.
    `re.match` anchors the pattern at the start of the string only, so text
    after the matched domain is not looked at. */
module ShopName {
  import opened Basics

  const SUFFIX := ".myshopify.com"

  /** `[a-zA-Z0-9]` (ASCII only, case-sensitive ranges) */
  predicate IsAlnum(c: char) {
    'a' <= c <= 'z' || 'A' <= c <= 'Z' || '0' <= c <= '9'
  }

  /** `[a-zA-Z0-9\-]` */
  predicate IsLabelChar(c: char) {
    IsAlnum(c) || c == '-'
  }

  // ---------------------------------------------------------------------------
  // Declarative description of the language of the pattern

  /** `p` is a whole match of the pattern whose label (the part before
      `.myshopify.com`) is `n` characters long. */
  ghost predicate IsShopNameWithLabel(p: string, n: nat) {
    && 1 <= n
    && (|p| == n + |SUFFIX| || (|p| == n + |SUFFIX| + 1 && p[n + |SUFFIX|] == '/'))
    && IsAlnum(p[0])
    && (forall k :: 1 <= k < n ==> IsLabelChar(p[k]))
    && p[n..n + |SUFFIX|] == SUFFIX
  }

  /** `p` is, in full, one alphanumeric, any number of alphanumerics or `-`,
      `.myshopify.com`, and optionally one `/`. */
  ghost predicate IsShopName(p: string) {
    exists n: nat :: IsShopNameWithLabel(p, n)
  }

  /** What `re.match` accepts: some prefix of `s` is a shop name. */
  ghost predicate HasShopNamePrefix(s: string) {
    exists m: nat :: m <= |s| && IsShopName(s[..m])
  }

  // ---------------------------------------------------------------------------
  // The matcher

  /** Greedy `[a-zA-Z0-9\-]*` starting at `i`: the first index at or after
      `i` that is not a label character (or the end of `s`). */
  function LabelEnd(s: string, i: nat): (j: nat)
    requires i <= |s|
    ensures i <= j <= |s|
    ensures forall k :: i <= k < j ==> IsLabelChar(s[k])
    ensures j == |s| || !IsLabelChar(s[j])
    decreases |s| - i
  {
    if i == |s| || !IsLabelChar(s[i]) then i else LabelEnd(s, i + 1)
  }

  /** `re.match` of the shop pattern: the end of the match, or None.
      Backtracking the star cannot help, since `.` is not a label character;
      `[\/]?` is greedy. */
  function MatchShop(s: string): (m: Option<nat>)
    ensures m.Some? ==> m.value <= |s| && IsShopName(s[..m.value])
  {
    if |s| == 0 || !IsAlnum(s[0]) then None
    else
      var j := LabelEnd(s, 1);
      var e := j + |SUFFIX|;
      if e <= |s| && s[j..e] == SUFFIX then
        var m := if e < |s| && s[e] == '/' then e + 1 else e;
        assert IsShopNameWithLabel(s[..m], j);
        Some(m)
      else None
  }

  /** `is_valid_shop(shop)`, read as a truth value. */
  predicate IsValidShop(shop: string) {
    MatchShop(shop).Some?
  }

  // ---------------------------------------------------------------------------
  // Properties

  /** A shop name fixes the length of its label: the first `.` after the start. */
  lemma LabelIsFirstNonLabelChar(s: string, m: nat, n: nat)
    requires m <= |s| && IsShopNameWithLabel(s[..m], n)
    ensures LabelEnd(s, 1) == n
  {
    var p := s[..m];
    assert p[n..n + |SUFFIX|][0] == SUFFIX[0] == '.';
    assert s[n] == p[n] == '.';
    assert forall k :: 1 <= k < n ==> s[k] == p[k];
  }

  /** The matcher finds the longest shop-name prefix (the optional `/` is greedy). */
  lemma {:induction false} MatchShopIsLongest(s: string, m': nat)
    requires m' <= |s| && IsShopName(s[..m'])
    ensures MatchShop(s).Some? && m' <= MatchShop(s).value
  {
    var n: nat :| IsShopNameWithLabel(s[..m'], n);
    LabelIsFirstNonLabelChar(s, m', n);
    var p := s[..m'];
    assert s[0] == p[0];
    assert s[n..n + |SUFFIX|] == p[n..n + |SUFFIX|];
    if m' == n + |SUFFIX| + 1 {
      assert s[n + |SUFFIX|] == p[n + |SUFFIX|];
    }
  }

  /** `is_valid_shop` accepts exactly the strings that start with a shop name. */
  lemma IsValidShopSpec(s: string)
    ensures IsValidShop(s) <==> HasShopNamePrefix(s)
  {
    if HasShopNamePrefix(s) {
      var m: nat :| m <= |s| && IsShopName(s[..m]);
      MatchShopIsLongest(s, m);
    }
  }

  /** Text after a shop name never causes rejection. */
  lemma TrailingTextAccepted(p: string, rest: string)
    requires IsShopName(p)
    ensures IsValidShop(p + rest)
  {
    assert (p + rest)[..|p|] == p;
    MatchShopIsLongest(p + rest, |p|);
  }

  /** A name that starts with anything but an ASCII letter or digit (`-`, `.`,
      `_`, a space) is rejected. */
  lemma LeadingNonAlnumRejected(s: string)
    requires |s| > 0 && !IsAlnum(s[0])
    ensures !IsValidShop(s)
  {
  }

  /** `myshopify.com` on its own is rejected: its label `myshopify` is
      followed by `.com`, not by `.myshopify.com`. */
  lemma BareSuffixRejected()
    ensures !IsValidShop("myshopify.com")
  {
    var s := "myshopify.com";
    assert LabelEnd(s, 1) == 9 by {
      assert s[9] == '.';
      assert forall k :: 1 <= k < 9 ==> IsLabelChar(s[k]);
    }
  }

  lemma AcceptsPlainShop()
    ensures IsValidShop("foo-bar.myshopify.com")
  {
    var a := "foo-bar.myshopify.com";
    assert LabelEnd(a, 1) == 7 by {
      assert a[7] == '.';
      assert forall k :: 1 <= k < 7 ==> IsLabelChar(a[k]);
    }
    assert |a| == 21 && IsAlnum(a[0]);
    assert a[7..21] == SUFFIX;
    assert MatchShop(a) == Some(21);
  }

  lemma MatchIncludesTrailingSlash()
    ensures MatchShop("foo-bar.myshopify.com/") == Some(22)
  {
    var b := "foo-bar.myshopify.com/";
    assert LabelEnd(b, 1) == 7 by {
      assert b[7] == '.';
      assert forall k :: 1 <= k < 7 ==> IsLabelChar(b[k]);
    }
    assert b[7..21] == SUFFIX;
  }

  /** `_` ends the label of `foo_bar.evilhost.com` before any `.myshopify.com`. */
  lemma RejectsOtherHost()
    ensures !IsValidShop("foo_bar.evilhost.com")
  {
    var c := "foo_bar.evilhost.com";
    assert LabelEnd(c, 1) == 3 by {
      assert c[3] == '_';
      assert forall k :: 1 <= k < 3 ==> IsLabelChar(c[k]);
    }
  }
}
