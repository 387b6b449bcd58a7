/**
 * The info panel's bookmark list: a list of symbols without duplicates, saved in
 * the settings store as one comma-separated string, toggled from the star action
 * in the symbol box, and shown in the bookmarks menu (visible when it is
 * non-empty). Also the star icon choice and the key-press rule for the bookmark
 * action and the "Invalid symbol" label.
 *
 * The settings store is a parameter (the saved bookmark string and the
 * `dark_mode` entry); menu actions and icons are reduced to the state they show.
 */
module Bookmarks {
  import opened Wrappers
  import opened Text
  import opened SymbolInput

  // ---------------------------------------------------------------------------
  // Lists of symbols

  predicate NoDuplicates(s: seq<string>) {
    forall i, j :: 0 <= i < j < |s| ==> s[i] != s[j]
  }

  /** `list.index`: the first position of `x`. */
  function IndexOf(s: seq<string>, x: string): (i: nat)
    requires x in s
    ensures i < |s| && s[i] == x && x !in s[..i]
    decreases |s|
  {
    if s[0] == x then 0
    else
      var j := IndexOf(s[1..], x);
      assert s[..j + 1] == [s[0]] + s[1..][..j];
      j + 1
  }

  /** `list(dict.fromkeys(xs))`: each key once, where it was first inserted. */
  function Dedup(xs: seq<string>): (d: seq<string>)
    ensures |d| <= |xs|
    decreases |xs|
  {
    if xs == [] then []
    else
      var d := Dedup(xs[..|xs| - 1]);
      if xs[|xs| - 1] in d then d else d + [xs[|xs| - 1]]
  }

  /** The entries of `xs` that are valid symbols, in order. */
  function Filter(xs: seq<string>, valid: seq<string>): (f: seq<string>)
    ensures |f| <= |xs|
    decreases |xs|
  {
    if xs == [] then []
    else
      var f := Filter(xs[..|xs| - 1], valid);
      if xs[|xs| - 1] in valid then f + [xs[|xs| - 1]] else f
  }

  /** What `__load_bookmarks` returns for the saved setting (None: no such setting). */
  function LoadedBookmarks(stored: Option<string>, valid: seq<string>): (bookmarks: seq<string>)
    ensures stored.None? ==> bookmarks == []
    ensures stored.Some? ==> |bookmarks| <= |Split(stored.value, ',')|
  {
    match stored
    case None => []
    case Some(s) => Filter(Dedup(Split(s, ',')), valid)
  }

  lemma AppendNoDuplicates(s: seq<string>, x: string)
    requires NoDuplicates(s) && x !in s
    ensures NoDuplicates(s + [x])
  {
    forall i, j | 0 <= i < j < |s + [x]| ensures (s + [x])[i] != (s + [x])[j] {
      if j == |s| {
        assert (s + [x])[i] == s[i];
      } else {
        assert (s + [x])[i] == s[i] && (s + [x])[j] == s[j];
      }
    }
  }

  /** `dict.fromkeys` keeps each key once and loses none. */
  lemma {:induction false} DedupContents(xs: seq<string>)
    ensures NoDuplicates(Dedup(xs))
    ensures forall x :: x in Dedup(xs) <==> x in xs
    decreases |xs|
  {
    if xs != [] {
      var init := xs[..|xs| - 1];
      var last := xs[|xs| - 1];
      DedupContents(init);
      assert xs == init + [last];
      if last !in Dedup(init) {
        AppendNoDuplicates(Dedup(init), last);
      }
    }
  }

  /** The first occurrence of `x` in `xs`. */
  function FirstIndex(xs: seq<string>, x: string): (i: nat)
    requires x in xs
    ensures i < |xs| && xs[i] == x
  {
    IndexOf(xs, x)
  }

  lemma FirstIndexInPrefix(xs: seq<string>, k: nat, x: string)
    requires k <= |xs| && x in xs[..k]
    ensures FirstIndex(xs, x) == FirstIndex(xs[..k], x)
  {
    var i := FirstIndex(xs[..k], x);
    var j := FirstIndex(xs, x);
    assert xs[..k][..i] == xs[..i];
    assert x !in xs[..j];
  }

  /** The keys come out in the order of their first occurrences. */
  lemma {:induction false} DedupOrder(xs: seq<string>, i: nat, j: nat)
    requires i < j < |Dedup(xs)|
    ensures Dedup(xs)[i] in xs && Dedup(xs)[j] in xs
    ensures FirstIndex(xs, Dedup(xs)[i]) < FirstIndex(xs, Dedup(xs)[j])
    decreases |xs|
  {
    var init := xs[..|xs| - 1];
    var last := xs[|xs| - 1];
    var d := Dedup(init);
    DedupContents(xs);
    DedupContents(init);
    assert Dedup(xs)[i] in Dedup(xs) && Dedup(xs)[j] in Dedup(xs);
    assert Dedup(xs)[i] == d[i];
    if j < |d| {
      DedupOrder(init, i, j);
      assert Dedup(xs)[j] == d[j];
      FirstIndexInPrefix(xs, |xs| - 1, d[i]);
      FirstIndexInPrefix(xs, |xs| - 1, d[j]);
    } else {
      assert Dedup(xs)[j] == last && last !in init;
      FirstIndexInPrefix(xs, |xs| - 1, d[i]);
    }
  }

  /** A list without duplicates is its own de-duplication. */
  lemma {:induction false} DedupOfDistinct(xs: seq<string>)
    requires NoDuplicates(xs)
    ensures Dedup(xs) == xs
    decreases |xs|
  {
    if xs != [] {
      var init := xs[..|xs| - 1];
      assert NoDuplicates(init) by {
        forall i, j | 0 <= i < j < |init| ensures init[i] != init[j] {
          assert init[i] == xs[i] && init[j] == xs[j];
        }
      }
      DedupOfDistinct(init);
      assert init + [xs[|xs| - 1]] == xs;
    }
  }

  /** Filtering keeps exactly the valid entries, and introduces no duplicates. */
  lemma {:induction false} FilterContents(xs: seq<string>, valid: seq<string>)
    ensures forall x :: x in Filter(xs, valid) <==> x in xs && x in valid
    ensures NoDuplicates(xs) ==> NoDuplicates(Filter(xs, valid))
    decreases |xs|
  {
    if xs != [] {
      var init := xs[..|xs| - 1];
      var last := xs[|xs| - 1];
      FilterContents(init, valid);
      assert xs == init + [last];
      if NoDuplicates(xs) {
        assert NoDuplicates(init) by {
          forall i, j | 0 <= i < j < |init| ensures init[i] != init[j] {
            assert init[i] == xs[i] && init[j] == xs[j];
          }
        }
        if last in valid {
          AppendNoDuplicates(Filter(init, valid), last);
        }
      }
    }
  }

  /** In a list without duplicates, filtering keeps the entries in their original order. */
  lemma {:induction false} FilterOrder(xs: seq<string>, valid: seq<string>, i: nat, j: nat)
    requires NoDuplicates(xs)
    requires i < j < |Filter(xs, valid)|
    ensures Filter(xs, valid)[i] in xs && Filter(xs, valid)[j] in xs
    ensures FirstIndex(xs, Filter(xs, valid)[i]) < FirstIndex(xs, Filter(xs, valid)[j])
    decreases |xs|
  {
    var init := xs[..|xs| - 1];
    var last := xs[|xs| - 1];
    var f := Filter(init, valid);
    assert xs == init + [last];
    assert NoDuplicates(init) by {
      forall a, b | 0 <= a < b < |init| ensures init[a] != init[b] {
        assert init[a] == xs[a] && init[b] == xs[b];
      }
    }
    FilterContents(xs, valid);
    FilterContents(init, valid);
    assert Filter(xs, valid)[i] in Filter(xs, valid) && Filter(xs, valid)[j] in Filter(xs, valid);
    assert Filter(xs, valid)[i] == f[i];
    assert f[i] in init;
    if j < |f| {
      assert Filter(xs, valid)[j] == f[j];
      FilterOrder(init, valid, i, j);
      FilterInitIndex(xs, f[i]);
      FilterInitIndex(xs, f[j]);
    } else {
      assert Filter(xs, valid)[j] == last;
      FilterInitIndex(xs, f[i]);
      LastIndex(xs);
    }
  }

  /** An entry of all but the last element keeps its first position. */
  lemma FilterInitIndex(xs: seq<string>, x: string)
    requires xs != [] && x in xs[..|xs| - 1]
    ensures x in xs && FirstIndex(xs, x) < |xs| - 1
  {
    FirstIndexInPrefix(xs, |xs| - 1, x);
  }

  /** In a list without duplicates, the last element is first found at the end. */
  lemma LastIndex(xs: seq<string>)
    requires NoDuplicates(xs) && xs != []
    ensures FirstIndex(xs, xs[|xs| - 1]) == |xs| - 1
  {
    var k := FirstIndex(xs, xs[|xs| - 1]);
    if k < |xs| - 1 {
      assert xs[k] == xs[|xs| - 1];
    }
  }

  /** A list whose entries are all valid passes the filter unchanged. */
  lemma {:induction false} FilterAllValid(xs: seq<string>, valid: seq<string>)
    requires forall k :: 0 <= k < |xs| ==> xs[k] in valid
    ensures Filter(xs, valid) == xs
    decreases |xs|
  {
    if xs != [] {
      var init := xs[..|xs| - 1];
      assert forall k :: 0 <= k < |init| ==> init[k] == xs[k];
      FilterAllValid(init, valid);
      assert init + [xs[|xs| - 1]] == xs;
    }
  }

  /**
   * Loading gives a list without duplicates that holds precisely the valid
   * symbols named in the saved string.
   */
  lemma LoadedContents(stored: Option<string>, valid: seq<string>)
    ensures NoDuplicates(LoadedBookmarks(stored, valid))
    ensures forall x :: x in LoadedBookmarks(stored, valid)
              <==> stored.Some? && x in Split(stored.value, ',') && x in valid
  {
    match stored
    case None =>
    case Some(s) =>
      DedupContents(Split(s, ','));
      FilterContents(Dedup(Split(s, ',')), valid);
  }

  /**
   * Loading keeps the saved order: the bookmarks come out in the order of their
   * first occurrences in the saved string.
   */
  lemma LoadedOrder(s: string, valid: seq<string>, i: nat, j: nat)
    requires i < j < |LoadedBookmarks(Some(s), valid)|
    ensures LoadedBookmarks(Some(s), valid)[i] in Split(s, ',')
    ensures LoadedBookmarks(Some(s), valid)[j] in Split(s, ',')
    ensures FirstIndex(Split(s, ','), LoadedBookmarks(Some(s), valid)[i])
          < FirstIndex(Split(s, ','), LoadedBookmarks(Some(s), valid)[j])
  {
    var parts := Split(s, ',');
    var d := Dedup(parts);
    var l := LoadedBookmarks(Some(s), valid);
    assert l == Filter(d, valid);
    DedupContents(parts);
    FilterOrder(d, valid, i, j);
    var a, b := FirstIndex(d, l[i]), FirstIndex(d, l[j]);
    DedupOrder(parts, a, b);
  }

  /**
   * Saving and loading again: the comma-joined string of a duplicate-free list of
   * valid symbols loads back as the same list, provided no symbol holds a comma,
   * and, for the empty list, that "" is not itself a valid symbol.
   */
  lemma SaveLoadRoundTrip(bookmarks: seq<string>, valid: seq<string>)
    requires NoDuplicates(bookmarks)
    requires forall k :: 0 <= k < |bookmarks| ==> bookmarks[k] in valid
    requires NoSep(valid, ',')
    requires bookmarks == [] ==> "" !in valid
    ensures LoadedBookmarks(Some(Join(bookmarks, ',')), valid) == bookmarks
  {
    if bookmarks == [] {
      assert Split("", ',') == [""];
      assert Dedup([""]) == [""] by {
        assert [""][..0] == [];
      }
      assert Filter([""], valid) == [] by {
        assert [""][..0] == [];
      }
    } else {
      assert NoSep(bookmarks, ',') by {
        forall k | 0 <= k < |bookmarks| ensures ',' !in bookmarks[k] {
          var m :| 0 <= m < |valid| && valid[m] == bookmarks[k];
        }
      }
      SplitJoin(bookmarks, ',');
      DedupOfDistinct(bookmarks);
      FilterAllValid(bookmarks, valid);
    }
  }

  /** `__load_bookmarks`: split on ',', keep first occurrences, keep valid symbols. */
  method LoadBookmarks(stored: Option<string>, valid: seq<string>) returns (bookmarks: seq<string>)
    ensures bookmarks == LoadedBookmarks(stored, valid)
    ensures NoDuplicates(bookmarks)
    ensures forall x :: x in bookmarks <==> stored.Some? && x in Split(stored.value, ',') && x in valid
  {
    LoadedContents(stored, valid);
    if stored.None? {
      return [];
    }
    var keys := FromKeys(Split(stored.value, ','));
    bookmarks := KeepValid(keys, valid);
  }

  /** `list(dict.fromkeys(parts))`, one key at a time. */
  method FromKeys(parts: seq<string>) returns (keys: seq<string>)
    ensures keys == Dedup(parts)
  {
    keys := [];
    var i := 0;
    while i < |parts|
      invariant 0 <= i <= |parts|
      invariant keys == Dedup(parts[..i])
    {
      assert parts[..i + 1][..i] == parts[..i];
      if parts[i] !in keys {
        keys := keys + [parts[i]];
      }
      i := i + 1;
    }
    assert parts[..i] == parts;
  }

  /** `[s for s in keys if s in valid_symbols]`. */
  method KeepValid(keys: seq<string>, valid: seq<string>) returns (kept: seq<string>)
    ensures kept == Filter(keys, valid)
  {
    kept := [];
    var i := 0;
    while i < |keys|
      invariant 0 <= i <= |keys|
      invariant kept == Filter(keys[..i], valid)
    {
      assert keys[..i + 1][..i] == keys[..i];
      if keys[i] in valid {
        kept := kept + [keys[i]];
      }
      i := i + 1;
    }
    assert keys[..i] == keys;
  }

  // ---------------------------------------------------------------------------
  // Icons and keys

  datatype Icon = StarIcon | LightStarIcon | BlueStarIcon

  /** The star for a symbol that is not bookmarked: dark only when `dark_mode` is saved and false. */
  function PlainStar(darkMode: Option<bool>): (icon: Icon)
    ensures icon != BlueStarIcon
  {
    if darkMode == Some(false) then StarIcon else LightStarIcon
  }

  /** `load_bookmark_star`'s choice of icon. */
  function StarIconFor(symbol: string, bookmarks: seq<string>, darkMode: Option<bool>): (icon: Icon)
    ensures icon == BlueStarIcon <==> symbol in bookmarks
    ensures icon == StarIcon <==> symbol !in bookmarks && darkMode == Some(false)
    ensures icon == LightStarIcon <==> symbol !in bookmarks && darkMode != Some(false)
  {
    if symbol in bookmarks then BlueStarIcon else PlainStar(darkMode)
  }

  datatype Key = ReturnKey | EnterKey | OtherKey

  /** `str.isalpha` (ASCII letters only): non-empty and every character a letter. */
  predicate IsAlpha(s: string) {
    |s| > 0 && forall i :: 0 <= i < |s| ==> ('a' <= s[i] <= 'z' || 'A' <= s[i] <= 'Z')
  }

  // ---------------------------------------------------------------------------
  // The panel

  class InfoPanel {
    const lineEdit: SymbolLineEdit
    /** The symbols of `self.bookmarks`, in order. */
    var bookmarks: seq<string>
    /** The "bookmarks" entry of the settings store. */
    var stored: Option<string>
    /** Whether the bookmarks menu is shown in the menu bar. */
    var menuVisible: bool
    var starIcon: Icon
    var actionVisible: bool
    var labelVisible: bool
    /** The red border `is_valid_symbol` puts on the symbol box. */
    var redBorder: bool

    /** No bookmark twice, each one accepted by the symbol box, the menu shown exactly when there are some. */
    predicate Valid()
      reads this, lineEdit
    {
      NoDuplicates(bookmarks)
      && (forall k :: 0 <= k < |bookmarks| ==> bookmarks[k] in Alternatives(lineEdit.validSymbols))
      && (menuVisible <==> bookmarks != [])
    }

    /** The part of `__init__` that concerns the symbol box, the bookmarks and the icons. */
    constructor (symbol: string, validSymbols: seq<string>, savedBookmarks: Option<string>, darkMode: Option<bool>)
      ensures fresh(lineEdit) && lineEdit.validSymbols == validSymbols && lineEdit.Valid()
      ensures lineEdit.text == Settle(Upper(symbol), validSymbols)
      ensures bookmarks == LoadedBookmarks(savedBookmarks, validSymbols)
      ensures stored == savedBookmarks
      ensures menuVisible == (bookmarks != [])
      ensures starIcon == PlainStar(darkMode)
      ensures actionVisible && !labelVisible && !redBorder
      ensures Valid()
    {
      var edit := new SymbolLineEdit(validSymbols);
      edit.SetText(symbol);
      var loaded := LoadBookmarks(savedBookmarks, validSymbols);
      lineEdit := edit;
      bookmarks := loaded;
      stored := savedBookmarks;
      menuVisible := loaded != [];
      starIcon := PlainStar(darkMode);
      actionVisible := true;
      labelVisible := false;
      redBorder := false;
    }

    /** `is_valid_symbol`: the symbol box holds valid input; marks it red when not. */
    method IsValidSymbol() returns (ok: bool)
      modifies this
      ensures ok == lineEdit.HasValidInput()
      ensures redBorder == !ok
      ensures bookmarks == old(bookmarks) && stored == old(stored) && menuVisible == old(menuVisible)
      ensures starIcon == old(starIcon) && actionVisible == old(actionVisible) && labelVisible == old(labelVisible)
    {
      ok := lineEdit.HasValidInput();
      redBorder := !ok;
    }

    /** `__toggle_bookmark` for the symbol in the symbol box. */
    method ToggleBookmark(darkMode: Option<bool>)
      requires Valid()
      modifies this
      ensures Valid()
      ensures redBorder == !lineEdit.HasValidInput()
      ensures !lineEdit.HasValidInput() ==>
        bookmarks == old(bookmarks) && stored == old(stored) && starIcon == old(starIcon)
        && menuVisible == old(menuVisible)
      ensures lineEdit.HasValidInput() && lineEdit.text in old(bookmarks) ==>
        var i := IndexOf(old(bookmarks), lineEdit.text);
        bookmarks == old(bookmarks)[..i] + old(bookmarks)[i + 1..]
      ensures lineEdit.HasValidInput() && lineEdit.text !in old(bookmarks) ==>
        bookmarks == old(bookmarks) + [lineEdit.text]
      ensures lineEdit.HasValidInput() ==>
        stored == Some(Join(bookmarks, ','))
        && starIcon == StarIconFor(lineEdit.text, bookmarks, darkMode)
      ensures actionVisible == old(actionVisible) && labelVisible == old(labelVisible)
    {
      var ok := IsValidSymbol();
      if !ok {
        return;
      }
      ToggleSymbol(lineEdit.text, darkMode);
    }

    /**
     * `__toggle_bookmark` once the symbol is known to be valid: remove it at its
     * index (plain star, menu hidden when the list empties) or append it (menu
     * shown, blue star), then save the comma-joined list.
     */
    method ToggleSymbol(symbol: string, darkMode: Option<bool>)
      requires Valid() && symbol in Alternatives(lineEdit.validSymbols)
      modifies this
      ensures Valid()
      ensures symbol in old(bookmarks) ==>
        var i := IndexOf(old(bookmarks), symbol);
        bookmarks == old(bookmarks)[..i] + old(bookmarks)[i + 1..]
      ensures symbol !in old(bookmarks) ==> bookmarks == old(bookmarks) + [symbol]
      ensures stored == Some(Join(bookmarks, ','))
      ensures starIcon == StarIconFor(symbol, bookmarks, darkMode)
      ensures redBorder == old(redBorder)
      ensures actionVisible == old(actionVisible) && labelVisible == old(labelVisible)
    {
      var alternatives := Alternatives(lineEdit.validSymbols);
      if symbol in bookmarks {
        var i := IndexOf(bookmarks, symbol);
        starIcon := PlainStar(darkMode);
        RemoveAtKeepsValid(bookmarks, i);
        MembersStay(bookmarks, bookmarks[..i] + bookmarks[i + 1..], alternatives);
        bookmarks := bookmarks[..i] + bookmarks[i + 1..];
        if |bookmarks| == 0 {
          menuVisible := false;
        }
      } else {
        AppendNoDuplicates(bookmarks, symbol);
        AppendMember(bookmarks, symbol, alternatives);
        bookmarks := bookmarks + [symbol];
        menuVisible := true;
        starIcon := BlueStarIcon;
      }
      stored := Some(Join(bookmarks, ','));
    }

    /** `load_bookmark_star`: the symbol given, or the one in the symbol box. */
    method LoadBookmarkStar(symbol: Option<string>, darkMode: Option<bool>)
      modifies this
      ensures starIcon == StarIconFor(if symbol.Some? then symbol.value else lineEdit.text, bookmarks, darkMode)
      ensures bookmarks == old(bookmarks) && stored == old(stored) && menuVisible == old(menuVisible)
      ensures actionVisible == old(actionVisible) && labelVisible == old(labelVisible) && redBorder == old(redBorder)
    {
      var s := if symbol.Some? then symbol.value else lineEdit.text;
      starIcon := StarIconFor(s, bookmarks, darkMode);
    }

    /** The decision part of `__key_press_event`, before the key goes on to the symbol box. */
    method KeyPress(key: Key, eventText: string)
      modifies this
      ensures (key == ReturnKey || key == EnterKey) && lineEdit.HasValidInput() ==>
        actionVisible && !labelVisible
      ensures !((key == ReturnKey || key == EnterKey) && lineEdit.HasValidInput())
              && |eventText| > 0 && !IsAlpha(eventText) ==>
        !actionVisible && labelVisible
      ensures !((key == ReturnKey || key == EnterKey) && lineEdit.HasValidInput())
              && !(|eventText| > 0 && !IsAlpha(eventText)) ==>
        actionVisible == old(actionVisible) && labelVisible == old(labelVisible)
      ensures bookmarks == old(bookmarks) && stored == old(stored) && menuVisible == old(menuVisible)
      ensures starIcon == old(starIcon) && redBorder == old(redBorder)
    {
      if (key == ReturnKey || key == EnterKey) && lineEdit.HasValidInput() {
        actionVisible := true;
        labelVisible := false;
      } else if |eventText| > 0 && !IsAlpha(eventText) {
        actionVisible := false;
        labelVisible := true;
      }
    }

    /**
     * What the settings store holds after a toggle loads back as the bookmark list,
     * when no valid symbol holds a comma and "" is not one of them.
     */
    lemma SavedBookmarksReload()
      requires Valid() && stored == Some(Join(bookmarks, ','))
      requires lineEdit.validSymbols != [] && NoSep(lineEdit.validSymbols, ',')
      requires "" !in lineEdit.validSymbols
      ensures LoadedBookmarks(stored, lineEdit.validSymbols) == bookmarks
    {
      SaveLoadRoundTrip(bookmarks, lineEdit.validSymbols);
    }
  }

  /** Deleting one entry keeps the others, in order, without duplicates, and drops that entry. */
  lemma RemoveAtKeepsValid(s: seq<string>, i: nat)
    requires NoDuplicates(s) && i < |s|
    ensures NoDuplicates(s[..i] + s[i + 1..])
    ensures s[i] !in s[..i] + s[i + 1..]
    ensures forall x :: x in s[..i] + s[i + 1..] ==> x in s
  {
    var r := s[..i] + s[i + 1..];
    assert forall k :: 0 <= k < |r| ==> r[k] == (if k < i then s[k] else s[k + 1]);
  }

  /** Entries drawn from a list of alternatives stay drawn from it in a sub-list. */
  lemma MembersStay(s: seq<string>, r: seq<string>, alternatives: seq<string>)
    requires forall k :: 0 <= k < |s| ==> s[k] in alternatives
    requires forall x :: x in r ==> x in s
    ensures forall k :: 0 <= k < |r| ==> r[k] in alternatives
  {
    forall k | 0 <= k < |r| ensures r[k] in alternatives {
      assert r[k] in r;
      var m :| 0 <= m < |s| && s[m] == r[k];
    }
  }

  /** Appending one of the alternatives keeps every entry one of them. */
  lemma AppendMember(s: seq<string>, x: string, alternatives: seq<string>)
    requires forall k :: 0 <= k < |s| ==> s[k] in alternatives
    requires x in alternatives
    ensures forall k :: 0 <= k < |s + [x]| ==> (s + [x])[k] in alternatives
  {
    forall k | 0 <= k < |s + [x]| ensures (s + [x])[k] in alternatives {
      if k < |s| {
        assert (s + [x])[k] == s[k];
      }
    }
  }

  /** Toggling a symbol on and then off again gives back the list it started from. */
  lemma AddThenRemoveRestores(s: seq<string>, x: string)
    requires NoDuplicates(s) && x !in s
    ensures IndexOf(s + [x], x) == |s|
    ensures (s + [x])[..|s|] + (s + [x])[|s| + 1..] == s
  {
    assert (s + [x])[..|s|] == s;
  }
}
