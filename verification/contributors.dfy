/**
 The editor's contributor list: each entry is one comma-separated line,
 normalised (spaces after a comma dropped) and split into items, and the
 contributors window reads six items per table row.
 */
module Contributors {

  /** Items per contributor: name, country, button text, button URL, contribution, Steam key. */
  const FIELDS: nat := 6

  predicate CommaFree(s: string) {
    forall i :: 0 <= i < |s| ==> s[i] != ','
  }

  function CommaCount(s: string): (n: nat)
    ensures n <= |s|
    ensures n == 0 <== CommaFree(s)
  {
    if s == [] then 0 else (if s[0] == ',' then 1 else 0) + CommaCount(s[1..])
  }

  /** s without its leading spaces. */
  function TrimLeft(s: string): (r: string)
    ensures r == [] || r[0] != ' '
    ensures |r| <= |s| && r == s[|s| - |r|..]
    ensures forall i :: 0 <= i < |s| - |r| ==> s[i] == ' '
  {
    if s != [] && s[0] == ' ' then TrimLeft(s[1..]) else s
  }

  /**
   The character loop of the normaliser. `spaceAllowed` is false right after
   a comma and turns true again at the first character that is not a space;
   spaces met while it is false are dropped, everything else is kept.
   */
  function Process(s: string, spaceAllowed: bool): (r: string)
    ensures |r| <= |s|
  {
    if s == [] then []
    else
      var c := s[0];
      if c == ',' then [c] + Process(s[1..], false)
      else if !spaceAllowed && c != ' ' then [c] + Process(s[1..], true)
      else if spaceAllowed then [c] + Process(s[1..], true)
      else Process(s[1..], false)
  }

  /**
   On a comma-free stretch the loop keeps everything, except that right
   after a comma it drops the leading spaces.
   */
  lemma {:induction false} ProcessCommaFree(s: string, spaceAllowed: bool)
    requires CommaFree(s)
    ensures Process(s, spaceAllowed) == if spaceAllowed then s else TrimLeft(s)
    decreases |s|
  {
    if s != [] {
      assert CommaFree(s[1..]) by {
        forall i | 0 <= i < |s[1..]| ensures s[1..][i] != ',' { assert s[1..][i] == s[i + 1]; }
      }
      if s[0] == ' ' && !spaceAllowed {
        ProcessCommaFree(s[1..], false);
      } else {
        ProcessCommaFree(s[1..], true);
        assert s == [s[0]] + s[1..];
      }
    }
  }

  /** At a comma the loop keeps the comma and starts the next stretch with spaces forbidden. */
  lemma {:induction false} ProcessAtComma(a: string, b: string, spaceAllowed: bool)
    requires CommaFree(a)
    ensures Process(a + [','] + b, spaceAllowed) == Process(a, spaceAllowed) + [','] + Process(b, false)
    decreases |a|
  {
    if a == [] {
      assert a + [','] + b == [','] + b;
      assert ([','] + b)[1..] == b;
    } else {
      assert (a + [','] + b)[0] == a[0];
      assert (a + [','] + b)[1..] == a[1..] + [','] + b;
      assert CommaFree(a[1..]) by {
        forall i | 0 <= i < |a[1..]| ensures a[1..][i] != ',' { assert a[1..][i] == a[i + 1]; }
      }
      var next := if a[0] == ' ' && !spaceAllowed then false else true;
      ProcessAtComma(a[1..], b, next);
    }
  }

  /** The loop keeps every comma. */
  lemma {:induction false} ProcessKeepsCommas(s: string, spaceAllowed: bool)
    ensures CommaCount(Process(s, spaceAllowed)) == CommaCount(s)
    decreases |s|
  {
    if s != [] {
      var next := if s[0] == ',' then false else if s[0] == ' ' && !spaceAllowed then false else true;
      ProcessKeepsCommas(s[1..], next);
      var tail := Process(s[1..], next);
      if s[0] != ' ' || spaceAllowed || s[0] == ',' {
        assert Process(s, spaceAllowed) == [s[0]] + tail;
        assert ([s[0]] + tail)[1..] == tail;
      }
    }
  }

  /** No comma of s is followed by a space. */
  predicate NoSpaceAfterComma(s: string) {
    forall i :: 0 <= i < |s| - 1 && s[i] == ',' ==> s[i + 1] != ' '
  }

  /** In the loop's output no comma is followed by a space, and without spaces allowed it does not start with one. */
  lemma {:induction false} ProcessNoSpaceAfterComma(s: string, spaceAllowed: bool)
    ensures !spaceAllowed ==> Process(s, spaceAllowed) == [] || Process(s, spaceAllowed)[0] != ' '
    ensures NoSpaceAfterComma(Process(s, spaceAllowed))
    decreases |s|
  {
    if s != [] {
      var next := if s[0] == ',' then false else if s[0] == ' ' && !spaceAllowed then false else true;
      ProcessNoSpaceAfterComma(s[1..], next);
      var tail := Process(s[1..], next);
      if s[0] != ' ' || spaceAllowed || s[0] == ',' {
        var r := [s[0]] + tail;
        assert Process(s, spaceAllowed) == r;
        forall i | 0 <= i < |r| - 1 && r[i] == ',' ensures r[i + 1] != ' ' {
          if i > 0 { assert r[i] == tail[i - 1]; }
        }
      }
    }
  }

  /** Index of the first comma of s, or |s| when there is none. */
  function FirstComma(s: string): (i: nat)
    ensures i <= |s|
    ensures CommaFree(s[..i])
    ensures i < |s| ==> s[i] == ','
    decreases |s|
  {
    if s == [] then 0
    else if s[0] == ',' then 0
    else
      var j := FirstComma(s[1..]);
      assert s[..1 + j] == [s[0]] + s[1..][..j];
      1 + j
  }

  /**
   Reading a string with getline and ',' as the delimiter: the text up to
   each comma is one item, the text after the last comma is a last item when
   it is not empty, and an empty string gives no item.
   */
  function Split(s: string): (items: seq<string>)
    ensures forall k :: 0 <= k < |items| ==> CommaFree(items[k])
    ensures items == [] <==> s == []
    decreases |s|
  {
    if s == [] then []
    else
      var i := FirstComma(s);
      if i == |s| then [s] else [s[..i]] + Split(s[i + 1..])
  }

  /** Items joined back with commas. */
  function Join(items: seq<string>): string {
    if items == [] then [] else if |items| == 1 then items[0] else items[0] + [','] + Join(items[1..])
  }

  /** Joining the items gives back a string that does not end in a comma. */
  lemma {:induction false} JoinSplit(s: string)
    requires s != [] && s[|s| - 1] != ','
    ensures Join(Split(s)) == s
    decreases |s|
  {
    var i := FirstComma(s);
    if i < |s| {
      var rest := s[i + 1..];
      SplitAtComma(s, i);
      JoinSplit(rest);
      JoinCons(s[..i], Split(rest));
      Rejoin(s, i);
    } else {
      assert Split(s) == [s];
    }
  }

  /** Splitting at the first comma: the text before it, then the items of the text after it. */
  lemma SplitAtComma(s: string, i: nat)
    requires s != [] && s[|s| - 1] != ',' && i == FirstComma(s) && i < |s|
    ensures s[i + 1..] != [] && s[i + 1..][|s[i + 1..]| - 1] != ','
    ensures Split(s) == [s[..i]] + Split(s[i + 1..])
    ensures Split(s[i + 1..]) != []
  {
    assert i != |s| - 1;
  }

  /** The text before a comma, the comma and the text after it make up the string. */
  lemma Rejoin(s: string, i: nat)
    requires i < |s| && s[i] == ','
    ensures s[..i] + [','] + s[i + 1..] == s
  {
  }

  lemma JoinCons(item: string, items: seq<string>)
    requires items != []
    ensures Join([item] + items) == item + [','] + Join(items)
  {
    assert ([item] + items)[1..] == items;
  }

  /** A string that does not end in a comma splits into one item more than it has commas. */
  lemma {:induction false} SplitCount(s: string)
    requires s != [] && s[|s| - 1] != ','
    ensures |Split(s)| == CommaCount(s) + 1
    decreases |s|
  {
    var i := FirstComma(s);
    CommaCountSplit(s, i);
    if i < |s| {
      assert i != |s| - 1;
      var rest := s[i + 1..];
      assert rest[|rest| - 1] == s[|s| - 1];
      SplitCount(rest);
      assert Split(s) == [s[..i]] + Split(rest);
    }
  }

  /** The comma count splits at the first comma. */
  lemma {:induction false} CommaCountSplit(s: string, i: nat)
    requires i == FirstComma(s)
    ensures i == |s| ==> CommaCount(s) == 0
    ensures i < |s| ==> CommaCount(s) == 1 + CommaCount(s[i + 1..])
  {
    CommaCountAppend(s[..i], s[i..]);
    assert s == s[..i] + s[i..];
    if i < |s| {
      assert s[i..][1..] == s[i + 1..];
    }
  }

  lemma {:induction false} CommaCountAppend(a: string, b: string)
    ensures CommaCount(a + b) == CommaCount(a) + CommaCount(b)
    decreases |a|
  {
    if a != [] {
      assert (a + b)[1..] == a[1..] + b;
      CommaCountAppend(a[1..], b);
    } else {
      assert a + b == b;
    }
  }

  /**
   In a string where no comma is followed by a space, every item after the
   first begins with something other than a space.
   */
  lemma {:induction false} SplitItemsStartClean(s: string)
    requires NoSpaceAfterComma(s)
    ensures forall k :: 1 <= k < |Split(s)| ==> Split(s)[k] == [] || Split(s)[k][0] != ' '
    decreases |s|
  {
    if s != [] {
      var i := FirstComma(s);
      if i < |s| {
        var rest := s[i + 1..];
        NoSpaceAfterCommaSuffix(s, i + 1);
        SplitItemsStartClean(rest);
        if rest != [] {
          assert rest[0] == s[i + 1];
          FirstItemStart(rest);
        }
        var items := Split(s);
        assert items == [s[..i]] + Split(rest);
        forall k | 1 <= k < |items| ensures items[k] == [] || items[k][0] != ' ' {
          assert items[k] == Split(rest)[k - 1];
        }
      }
    }
  }

  /** A suffix of a string without a space after a comma has none either. */
  lemma NoSpaceAfterCommaSuffix(s: string, j: nat)
    requires NoSpaceAfterComma(s) && j <= |s|
    ensures NoSpaceAfterComma(s[j..])
  {
    var t := s[j..];
    forall i | 0 <= i < |t| - 1 && t[i] == ',' ensures t[i + 1] != ' ' {
      assert t[i] == s[j + i] && t[i + 1] == s[j + i + 1];
    }
  }

  /** The first item of a non-empty string starts with the string's first character, unless it is empty. */
  lemma FirstItemStart(s: string)
    requires s != []
    ensures Split(s)[0] == [] || Split(s)[0][0] == s[0]
  {
  }

  /** The items of one entry: normalised (the loop started with spaces allowed), then split. */
  function EntryItems(entry: string): (items: seq<string>)
    ensures forall k :: 1 <= k < |items| ==> items[k] == [] || items[k][0] != ' '
    ensures forall k :: 0 <= k < |items| ==> CommaFree(items[k])
    ensures WellFormedEntry(entry) ==> |items| == FIELDS
  {
    var normalised := Process(entry, true);
    ProcessNoSpaceAfterComma(entry, true);
    SplitItemsStartClean(normalised);
    if WellFormedEntry(entry) then
      ProcessKeepsCommas(entry, true);
      ProcessKeepsLast(entry, true);
      SplitCount(normalised);
      Split(normalised)
    else Split(normalised)
  }

  /** comma_seperate_contributors: every entry's items, in order. */
  function CommaSeparate(entries: seq<string>): (items: seq<string>)
    ensures forall k :: 0 <= k < |items| ==> CommaFree(items[k])
    decreases |entries|
  {
    if entries == [] then [] else EntryItems(entries[0]) + CommaSeparate(entries[1..])
  }

  /** The shape every shipped entry has: five commas, ending in a character that is neither a comma nor a space. */
  predicate WellFormedEntry(entry: string) {
    CommaCount(entry) == FIELDS - 1 && entry != [] && entry[|entry| - 1] != ',' && entry[|entry| - 1] != ' '
  }

  /** A character that is neither a comma nor a space at the end of an entry survives normalisation. */
  lemma {:induction false} ProcessKeepsLast(s: string, spaceAllowed: bool)
    requires s != [] && s[|s| - 1] != ',' && s[|s| - 1] != ' '
    ensures var r := Process(s, spaceAllowed); r != [] && r[|r| - 1] == s[|s| - 1]
    decreases |s|
  {
    if |s| > 1 {
      var next := if s[0] == ',' then false else if s[0] == ' ' && !spaceAllowed then false else true;
      ProcessKeepsLast(s[1..], next);
    }
  }

  /**
   With every entry well formed, row i of the table reads items 6i to 6i+5,
   and they are exactly entry i's six items: every read is in bounds.
   */
  lemma {:induction false} RowsMatchEntries(entries: seq<string>)
    requires forall e :: e in entries ==> WellFormedEntry(e)
    ensures |CommaSeparate(entries)| == FIELDS * |entries|
    ensures forall i, k :: 0 <= i < |entries| && 0 <= k < FIELDS ==>
      CommaSeparate(entries)[FIELDS * i + k] == EntryItems(entries[i])[k]
    decreases |entries|
  {
    if entries != [] {
      RowsMatchEntries(entries[1..]);
      var head := EntryItems(entries[0]);
      var rest := CommaSeparate(entries[1..]);
      forall i, k | 0 <= i < |entries| && 0 <= k < FIELDS
        ensures CommaSeparate(entries)[FIELDS * i + k] == EntryItems(entries[i])[k]
      {
        if i > 0 {
          assert FIELDS * i + k == FIELDS + (FIELDS * (i - 1) + k);
          assert entries[i] == entries[1..][i - 1];
        }
      }
    }
  }
}
