/** `Review.__repr__`: the f-string
    `<Review(id=…, comment='…', customer_id=…, item_id=…)>`, with integers
    rendered in decimal as `str(int)` does and a missing comment rendered
    as `None`. */
module Repr {
  import opened Wrappers
  import opened Schema

  predicate IsDigit(ch: char) { '0' <= ch <= '9' }

  predicate AllDigits(s: string) { forall k :: 0 <= k < |s| ==> IsDigit(s[k]) }

  function DigitChar(d: nat): (ch: char)
    requires d < 10
    ensures IsDigit(ch)
  {
    "0123456789"[d]
  }

  function DigitValue(ch: char): (d: nat)
    requires IsDigit(ch)
    ensures d < 10
  {
    (ch as int - '0' as int) as nat
  }

  /** The decimal digits of `n`, most significant first, without leading zeros. */
  function NatToDecimal(n: nat): (s: string)
    ensures |s| >= 1
    ensures AllDigits(s)
    ensures s[0] == '0' ==> n == 0
  {
    if n < 10 then [DigitChar(n)] else NatToDecimal(n / 10) + [DigitChar(n % 10)]
  }

  /** The number a string of decimal digits denotes. */
  function DecimalToNat(s: string): nat
    requires AllDigits(s)
  {
    if |s| == 0 then 0 else 10 * DecimalToNat(s[..|s| - 1]) + DigitValue(s[|s| - 1])
  }

  /** `str(i)` for a Python `int`: a minus sign before the digits of a
      negative number. */
  function IntToDecimal(i: int): string {
    if i < 0 then "-" + NatToDecimal(-i) else NatToDecimal(i)
  }

  /** `int(s)` for the strings `str` produces. */
  function ParseInt(s: string): Option<int> {
    if |s| > 0 && s[0] == '-' then
      if AllDigits(s[1..]) then Some(0 - DecimalToNat(s[1..])) else None
    else if AllDigits(s) then Some(DecimalToNat(s)) else None
  }

  lemma {:induction false} NatDecimalRoundTrip(n: nat)
    ensures DecimalToNat(NatToDecimal(n)) == n
  {
    var s := NatToDecimal(n);
    if n < 10 {
      assert s[..|s| - 1] == [];
      assert DigitValue(DigitChar(n)) == n;
    } else {
      assert s[..|s| - 1] == NatToDecimal(n / 10);
      NatDecimalRoundTrip(n / 10);
      assert DigitValue(DigitChar(n % 10)) == n % 10;
    }
  }

  /** Parsing the decimal rendering of an integer gives the integer back. */
  lemma IntDecimalRoundTrip(i: int)
    ensures ParseInt(IntToDecimal(i)) == Some(i)
  {
    var s := IntToDecimal(i);
    if i < 0 {
      var d := NatToDecimal(-i);
      assert s[0] == '-' && s[1..] == d;
      NatDecimalRoundTrip(-i);
    } else {
      assert IsDigit(s[0]);
      NatDecimalRoundTrip(i);
    }
  }

  /** How a nullable comment appears inside the repr. */
  function CommentText(comment: Option<string>): string {
    match comment
    case Some(s) => s
    case None => "None"
  }

  const ReprPrefix: string := "<Review(id="
  const ReprSuffix: string := ")>"

  /** The text between the primary key and the customer key. */
  function CommentPart(comment: Option<string>): string {
    ", comment='" + CommentText(comment) + "', customer_id="
  }

  /** The repr up to and including `customer_id=`. */
  function ReprLead(r: Review): (t: string)
    ensures ReprPrefix <= t
  {
    var p := ReprPrefix + IntToDecimal(r.id);
    assert p[..|ReprPrefix|] == ReprPrefix;
    p + CommentPart(r.comment)
  }

  /** The repr up to and including `item_id=`. */
  function ReprHead(r: Review): (t: string)
    ensures ReprPrefix <= t
  {
    ReprLead(r) + IntToDecimal(r.customerId) + ", item_id="
  }

  /** `Review.__repr__`:
      `<Review(id=<id>, comment='<comment>', customer_id=<customer_id>, item_id=<item_id>)>`. */
  function ReviewRepr(r: Review): (s: string)
    ensures ReprPrefix <= s
    ensures |s| >= |ReprPrefix| + |ReprSuffix| && s[|s| - |ReprSuffix|..] == ReprSuffix
  {
    ReprHead(r) + IntToDecimal(r.itemId) + ReprSuffix
  }

  /** A character that can occur in the decimal rendering of an integer. */
  predicate IsDecimalChar(ch: char) { IsDigit(ch) || ch == '-' }

  /** The rendering of an integer is non-empty, starts with `-` exactly when
      the integer is negative, and is digits everywhere else. */
  lemma IntDecimalShape(i: int)
    ensures |IntToDecimal(i)| >= 1
    ensures IntToDecimal(i)[0] == '-' <==> i < 0
    ensures forall k :: 0 <= k < |IntToDecimal(i)| ==> IsDecimalChar(IntToDecimal(i)[k])
    ensures forall k :: 1 <= k < |IntToDecimal(i)| ==> IsDigit(IntToDecimal(i)[k])
  {
    if i < 0 {
      var d := NatToDecimal(-i);
      assert forall k :: 1 <= k < |IntToDecimal(i)| ==> IntToDecimal(i)[k] == d[k - 1];
    }
  }

  /** An integer rendering followed by a character that cannot belong to it
      is delimited: the rendered integer can be read back uniquely. */
  lemma DecimalPrefixUnique(x: int, y: int, u: string, v: string)
    requires |u| > 0 && |v| > 0
    requires !IsDecimalChar(u[0]) && !IsDecimalChar(v[0])
    requires IntToDecimal(x) + u == IntToDecimal(y) + v
    ensures x == y
  {
    var dx, dy := IntToDecimal(x), IntToDecimal(y);
    IntDecimalShape(x);
    IntDecimalShape(y);
    var m := if |dx| <= |dy| then |dx| else |dy|;
    assert (dx + u)[m] == (dy + v)[m];
    assert |dx| == |dy|;
    assert dx == (dx + u)[..|dx|] == (dy + v)[..|dy|] == dy;
    IntDecimalRoundTrip(x);
    IntDecimalRoundTrip(y);
  }

  /** An integer rendering preceded by a character that cannot belong to it
      is delimited from the left. */
  lemma DecimalSuffixUnique(x: int, y: int, u: string, v: string)
    requires |u| > 0 && |v| > 0
    requires !IsDecimalChar(u[|u| - 1]) && !IsDecimalChar(v[|v| - 1])
    requires u + IntToDecimal(x) == v + IntToDecimal(y)
    ensures x == y
  {
    var dx, dy := IntToDecimal(x), IntToDecimal(y);
    var s := u + dx;
    IntDecimalShape(x);
    IntDecimalShape(y);
    var m := if |dx| <= |dy| then |s| - |dx| - 1 else |s| - |dy| - 1;
    assert s[m] == (v + dy)[m];
    assert |dx| == |dy|;
    assert dx == s[|u|..] == (v + dy)[|v|..] == dy;
    IntDecimalRoundTrip(x);
    IntDecimalRoundTrip(y);
  }

  /** Two integer renderings found at the same position `i` of `s`, each
      followed by a character outside any rendering, render the same integer. */
  lemma DelimitedAfter(s: string, i: nat, x: int, y: int)
    requires i + |IntToDecimal(x)| < |s| && s[i..i + |IntToDecimal(x)|] == IntToDecimal(x)
    requires i + |IntToDecimal(y)| < |s| && s[i..i + |IntToDecimal(y)|] == IntToDecimal(y)
    requires !IsDecimalChar(s[i + |IntToDecimal(x)|]) && !IsDecimalChar(s[i + |IntToDecimal(y)|])
    ensures x == y
  {
    var dx, dy := IntToDecimal(x), IntToDecimal(y);
    assert s[i..] == dx + s[i + |dx|..];
    assert s[i..] == dy + s[i + |dy|..];
    DecimalPrefixUnique(x, y, s[i + |dx|..], s[i + |dy|..]);
  }

  /** Two integer renderings ending at the same position `j` of `s`, each
      preceded by a character outside any rendering, render the same integer. */
  lemma DelimitedBefore(s: string, j: nat, x: int, y: int)
    requires |IntToDecimal(x)| < j <= |s| && s[j - |IntToDecimal(x)|..j] == IntToDecimal(x)
    requires |IntToDecimal(y)| < j && s[j - |IntToDecimal(y)|..j] == IntToDecimal(y)
    requires !IsDecimalChar(s[j - |IntToDecimal(x)| - 1]) && !IsDecimalChar(s[j - |IntToDecimal(y)| - 1])
    ensures x == y
  {
    var dx, dy := IntToDecimal(x), IntToDecimal(y);
    assert s[..j] == s[..j - |dx|] + dx;
    assert s[..j] == s[..j - |dy|] + dy;
    DecimalSuffixUnique(x, y, s[..j - |dx|], s[..j - |dy|]);
  }

  /** Where the primary key sits in a repr, and what follows it. */
  lemma ReprShapeAtId(r: Review)
    ensures var s, d, p := ReviewRepr(r), IntToDecimal(r.id), |ReprPrefix|;
      && p + |d| < |s|
      && s[p..p + |d|] == d
      && s[p + |d|] == ','
  {
    var s, d, p := ReviewRepr(r), IntToDecimal(r.id), |ReprPrefix|;
    var lead, head := ReprLead(r), ReprHead(r);
    var cp := CommentPart(r.comment);
    assert lead == (ReprPrefix + d) + cp;
    assert lead[p..p + |d|] == d;
    assert lead[p + |d|] == cp[0] == ',';
    assert s[..|lead|] == head[..|lead|] == lead;
    assert s[p..p + |d|] == s[..|lead|][p..p + |d|];
  }

  /** Where the item key sits in a repr, and what surrounds it. */
  lemma ReprShapeAtItem(r: Review)
    ensures var s, d, h := ReviewRepr(r), IntToDecimal(r.itemId), ReprHead(r);
      && |s| == |h| + |d| + |ReprSuffix|
      && h == s[..|h|]
      && s[|h|..|h| + |d|] == d
      && s[|h| - 1] == '='
  {
  }

  /** Where the customer key sits in the text before the item key. */
  lemma ReprShapeAtCustomer(r: Review)
    ensures var h, d, l := ReprHead(r), IntToDecimal(r.customerId), ReprLead(r);
      && |h| == |l| + |d| + 10
      && l == h[..|l|]
      && h[|l|..|l| + |d|] == d
      && h[|l| - 1] == '='
  {
  }

  lemma ReprIdDetermined(a: Review, b: Review)
    requires ReviewRepr(a) == ReviewRepr(b)
    ensures a.id == b.id
  {
    var s, p := ReviewRepr(a), |ReprPrefix|;
    var dx, dy := IntToDecimal(a.id), IntToDecimal(b.id);
    ReprShapeAtId(a);
    ReprShapeAtId(b);
    assert s[p..p + |dx|] == dx && s[p..p + |dy|] == dy;
    assert !IsDecimalChar(s[p + |dx|]) && !IsDecimalChar(s[p + |dy|]);
    DelimitedAfter(s, p, a.id, b.id);
  }

  lemma ReprItemIdDetermined(a: Review, b: Review)
    requires ReviewRepr(a) == ReviewRepr(b)
    ensures a.itemId == b.itemId && ReprHead(a) == ReprHead(b)
  {
    var s := ReviewRepr(a);
    ReprShapeAtItem(a);
    ReprShapeAtItem(b);
    DelimitedBefore(s, |s| - |ReprSuffix|, a.itemId, b.itemId);
  }

  lemma ReprCustomerIdDetermined(a: Review, b: Review)
    requires ReprHead(a) == ReprHead(b)
    ensures a.customerId == b.customerId && ReprLead(a) == ReprLead(b)
  {
    var h := ReprHead(a);
    ReprShapeAtCustomer(a);
    ReprShapeAtCustomer(b);
    DelimitedBefore(h, |h| - 10, a.customerId, b.customerId);
  }

  lemma ReprCommentDetermined(a: Review, b: Review)
    requires a.id == b.id && ReprLead(a) == ReprLead(b)
    ensures CommentText(a.comment) == CommentText(b.comment)
  {
    var n := |ReprPrefix + IntToDecimal(a.id)|;
    var l := ReprLead(a);
    assert CommentPart(a.comment) == l[n..] == CommentPart(b.comment);
    var ca, cb := CommentPart(a.comment), CommentPart(b.comment);
    assert ca[11..|ca| - 15] == CommentText(a.comment);
    assert cb[11..|cb| - 15] == CommentText(b.comment);
  }

  /** The repr of a review determines its primary key, both foreign keys and
      the text of its comment, whatever characters the comment contains. */
  lemma ReprDeterminesFields(a: Review, b: Review)
    requires ReviewRepr(a) == ReviewRepr(b)
    ensures a.id == b.id && a.customerId == b.customerId && a.itemId == b.itemId
    ensures CommentText(a.comment) == CommentText(b.comment)
  {
    ReprIdDetermined(a, b);
    ReprItemIdDetermined(a, b);
    ReprCustomerIdDetermined(a, b);
    ReprCommentDetermined(a, b);
  }

  /** The one thing the repr loses: a missing comment and the comment
      `"None"` render alike. */
  lemma ReprConflatesNoneComment(id: int, customerId: int, itemId: int)
    ensures ReviewRepr(Review(id, None, customerId, itemId)) == ReviewRepr(Review(id, Some("None"), customerId, itemId))
  {
  }
}
