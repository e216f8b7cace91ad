/** Turning an event row's `GROUP_CONCAT(DISTINCT c.category_id)` and
    `GROUP_CONCAT(DISTINCT c.name)` columns back into category records: both
    lists are joined with `,` by SQLite and split on `,` by the handler, and the
    i-th id is paired with the i-th name. */
module Hydration {
  import opened Common

  /** A `{id, name}` entry of an event's `categories`; `None` is an
      `undefined` name. */
  datatype CategoryRef = CategoryRef(id: int, name: Option<string>)

  // ---------------------------------------------------------------------
  // Decimal text of an id, and parseInt

  predicate IsDigit(c: char)
  {
    '0' <= c <= '9'
  }

  function DecimalText(n: nat): (r: string)
    ensures |r| > 0 && forall i :: 0 <= i < |r| ==> IsDigit(r[i])
  {
    var d := ('0' as int + n % 10) as char;
    if n < 10 then [d] else DecimalText(n / 10) + [d]
  }

  /** The value of a string of digits. */
  function DigitsValue(s: string): nat
    requires forall i :: 0 <= i < |s| ==> IsDigit(s[i])
  {
    if s == [] then 0
    else
      assert IsDigit(s[|s| - 1]);
      DigitsValue(s[..|s| - 1]) * 10 + (s[|s| - 1] as int - '0' as int)
  }

  /** The longest prefix of digits. */
  function LeadingDigits(s: string): (r: string)
    ensures |r| <= |s| && r == s[..|r|]
    ensures forall i :: 0 <= i < |r| ==> IsDigit(r[i])
    ensures (forall i :: 0 <= i < |s| ==> IsDigit(s[i])) ==> r == s
  {
    if s == [] || !IsDigit(s[0]) then [] else [s[0]] + LeadingDigits(s[1..])
  }

  /** `parseInt(s)` for a piece that starts with a digit: the value of its leading
      digits. */
  function ParseInt(s: string): (r: nat)
    ensures (forall i :: 0 <= i < |s| ==> IsDigit(s[i])) ==> r == DigitsValue(s)
  {
    DigitsValue(LeadingDigits(s))
  }

  lemma {:induction false} ParseDecimalText(n: nat)
    ensures ParseInt(DecimalText(n)) == n
  {
    var s := DecimalText(n);
    assert LeadingDigits(s) == s;
    var d := ('0' as int + n % 10) as char;
    assert s[|s| - 1] == d;
    if n >= 10 {
      ParseDecimalText(n / 10);
      var p := DecimalText(n / 10);
      assert s[..|s| - 1] == p;
      assert LeadingDigits(p) == p;
      assert DigitsValue(s) == DigitsValue(p) * 10 + n % 10;
    } else {
      assert s[..|s| - 1] == [];
      assert DigitsValue(s) == n % 10;
    }
  }

  // ---------------------------------------------------------------------
  // GROUP_CONCAT and split

  /** `GROUP_CONCAT(x)` with its default separator. */
  function Join(xs: seq<string>): (r: string)
    ensures xs == [] ==> r == ""
    ensures |xs| > 0 ==> |xs[0]| <= |r| && r[..|xs[0]|] == xs[0]
    ensures |xs| > 1 ==> |xs[0]| < |r| && r[|xs[0]|] == ',' && r[|xs[0]| + 1..] == Join(xs[1..])
  {
    if xs == [] then "" else if |xs| == 1 then xs[0] else xs[0] + "," + Join(xs[1..])
  }

  /** `s.split(',')`. */
  function Split(s: string): (r: seq<string>)
    ensures |r| >= 1
  {
    if s == [] then [""]
    else if s[0] == ',' then [""] + Split(s[1..])
    else
      var rest := Split(s[1..]);
      [[s[0]] + rest[0]] + rest[1..]
  }

  predicate NoComma(s: string)
  {
    forall i :: 0 <= i < |s| ==> s[i] != ','
  }

  /** A comma-free text in front of `rest` extends the first piece of `rest`. */
  lemma {:induction false} SplitPrefix(w: string, rest: string)
    requires NoComma(w)
    ensures Split(w + rest) == [w + Split(rest)[0]] + Split(rest)[1..]
  {
    if w != [] {
      SplitPrefix(w[1..], rest);
      assert (w + rest)[0] == w[0] && w[0] != ',';
      assert (w + rest)[1..] == w[1..] + rest;
      assert [w[0]] + (w[1..] + Split(rest)[0]) == w + Split(rest)[0];
    } else {
      assert w + rest == rest && w + Split(rest)[0] == Split(rest)[0];
      assert [Split(rest)[0]] + Split(rest)[1..] == Split(rest);
    }
  }

  /** Joining comma-free pieces and splitting again gives the pieces back. */
  lemma {:induction false} SplitJoin(xs: seq<string>)
    requires |xs| >= 1
    requires forall i :: 0 <= i < |xs| ==> NoComma(xs[i])
    ensures Split(Join(xs)) == xs
  {
    if |xs| == 1 {
      SplitPrefix(xs[0], "");
      assert xs[0] + "" == xs[0] && [xs[0]] == xs;
    } else {
      SplitJoin(xs[1..]);
      SplitPrefix(xs[0], "," + Join(xs[1..]));
      assert ("," + Join(xs[1..]))[1..] == Join(xs[1..]);
      assert xs[0] + "," + Join(xs[1..]) == xs[0] + ("," + Join(xs[1..]));
      assert Split("," + Join(xs[1..])) == [""] + xs[1..];
      assert xs[0] + "" == xs[0];
      assert [xs[0]] + xs[1..] == xs;
    }
  }

  function DecimalTexts(ids: seq<nat>): (r: seq<string>)
    ensures |r| == |ids|
    ensures forall i :: 0 <= i < |ids| ==> r[i] == DecimalText(ids[i])
  {
    if ids == [] then [] else [DecimalText(ids[0])] + DecimalTexts(ids[1..])
  }

  // ---------------------------------------------------------------------
  // The mapping

  /** What the handlers compute from an event row whose linked categories have
      ids `ids` and names `names`: an empty id list is NULL, which gives `[]`;
      otherwise the id text is split, each piece parsed, and the i-th piece of
      the split name text paired with it. */
  function HydrateAsWritten(ids: seq<nat>, names: seq<string>): (r: seq<CategoryRef>)
    ensures ids == [] ==> r == []
    ensures ids != [] ==> |r| == |ids| && forall i :: 0 <= i < |ids| ==> r[i].id == ids[i]
  {
    if ids == [] then []
    else
      var texts := DecimalTexts(ids);
      assert Split(Join(texts)) == texts by {
        forall i | 0 <= i < |texts| ensures NoComma(texts[i]) {
          assert forall k :: 0 <= k < |texts[i]| ==> IsDigit(texts[i][k]);
        }
        SplitJoin(texts);
      }
      assert forall i :: 0 <= i < |ids| ==> ParseInt(texts[i]) == ids[i] by {
        forall i | 0 <= i < |ids| ensures ParseInt(texts[i]) == ids[i] {
          ParseDecimalText(ids[i]);
        }
      }
      var idParts := Split(Join(texts));
      var nameParts := Split(Join(names));
      seq(|idParts|, i requires 0 <= i < |idParts| =>
        CategoryRef(ParseInt(idParts[i]), if i < |nameParts| then Some(nameParts[i]) else None))
  }

  /** The pairing the mapping is meant to build: the i-th id with the i-th name. */
  function Zip(ids: seq<int>, names: seq<string>): (r: seq<CategoryRef>)
    requires |ids| == |names|
    ensures |r| == |ids|
    ensures forall i :: 0 <= i < |ids| ==> r[i] == CategoryRef(ids[i], Some(names[i]))
  {
    if ids == [] then [] else [CategoryRef(ids[0], Some(names[0]))] + Zip(ids[1..], names[1..])
  }

  /** As long as no category name contains a comma, the mapping as written is the
      pairing. */
  lemma HydrateIsZip(ids: seq<nat>, names: seq<string>)
    requires |ids| == |names|
    requires forall i :: 0 <= i < |names| ==> NoComma(names[i])
    ensures HydrateAsWritten(ids, names) == Zip(ids, names)
  {
    if ids != [] {
      var texts := DecimalTexts(ids);
      forall i | 0 <= i < |texts| ensures NoComma(texts[i]) {
        assert forall k :: 0 <= k < |texts[i]| ==> IsDigit(texts[i][k]);
      }
      SplitJoin(texts);
      SplitJoin(names);
      forall i | 0 <= i < |ids| ensures ParseInt(texts[i]) == ids[i] {
        ParseDecimalText(ids[i]);
      }
    }
  }

  /** A name with a comma shifts every later name: with categories 1 "Arts, Crafts"
      and 2 "Music", category 2 is reported with the name " Crafts". */
  lemma CommaInNameMisaligns()
    ensures HydrateAsWritten([1, 2], ["Arts, Crafts", "Music"])[1] == CategoryRef(2, Some(" Crafts"))
    ensures HydrateAsWritten([1, 2], ["Arts, Crafts", "Music"]) != Zip([1, 2], ["Arts, Crafts", "Music"])
  {
    var texts := DecimalTexts([1, 2]);
    assert texts == ["1", "2"];
    SplitJoin(texts);
    var pieces := ["Arts", " Crafts", "Music"];
    assert Join(["Arts, Crafts", "Music"]) == Join(pieces);
    SplitJoin(pieces);
    var nameParts := Split(Join(["Arts, Crafts", "Music"]));
    assert nameParts == pieces;
    assert nameParts[1] == " Crafts";
    var r := HydrateAsWritten([1, 2], ["Arts, Crafts", "Music"]);
    assert r[1].name == Some(nameParts[1]);
    assert r[1].id == 2;
    assert Zip([1, 2], ["Arts, Crafts", "Music"])[1].name == Some("Music");
    assert " Crafts" != "Music" by { assert " Crafts"[0] != "Music"[0]; }
  }
}
