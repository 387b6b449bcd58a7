/**
 * The stock-symbol input box: a line edit that only ever holds an upper-case
 * prefix of some valid symbol, and that reports whether it holds a whole one.
 *
 * The list of valid symbols is read from a JSON file when the widget is built;
 * here it is a constructor parameter.
 */
module SymbolInput {
  import opened Wrappers
  import opened Text

  // ---------------------------------------------------------------------------
  // The compiled pattern: `"|".join(map(re.escape, valid_symbols))`

  /** The characters `re.escape` puts a backslash in front of. */
  const Special: set<char> :=
    {'(', ')', '[', ']', '{', '}', '?', '*', '+', '-', '|', '^', '$', '\\', '.',
     '&', '~', '#', ' ', '\t', '\n', '\r', '\U{000B}', '\U{000C}'}

  function EscapeChar(c: char): string {
    if c in Special then ['\\', c] else [c]
  }

  /** `re.escape(s)`: no shorter than `s`, and empty only for the empty string. */
  function Escape(s: string): (e: string)
    ensures |e| >= |s|
    ensures e == [] <==> s == []
    decreases |s|
  {
    if s == [] then [] else EscapeChar(s[0]) + Escape(s[1..])
  }

  /** `map(re.escape, symbols)`. */
  function EscapeAll(symbols: seq<string>): (e: seq<string>)
    ensures |e| == |symbols|
    ensures symbols != [] ==> e[0] == Escape(symbols[0])
    decreases |symbols|
  {
    if symbols == [] then [] else [Escape(symbols[0])] + EscapeAll(symbols[1..])
  }

  /** The source text of the pattern the widget compiles. */
  function Pattern(symbols: seq<string>): (p: string)
    ensures p == [] <==> symbols == [] || symbols == [[]]
    ensures symbols != [] ==> Escape(symbols[0]) <= p
  {
    Join(EscapeAll(symbols), '|')
  }

  function PrependChar(c: char, branches: Option<seq<string>>): (r: Option<seq<string>>)
    requires branches.Some? ==> |branches.value| > 0
    ensures r.Some? <==> branches.Some?
    ensures r.Some? ==> |r.value| == |branches.value|
  {
    match branches
    case None => None
    case Some(bs) => Some([[c] + bs[0]] + bs[1..])
  }

  /**
   * The meaning of a pattern made only of literal characters, escaped special
   * characters and `|`: the literal strings its branches stand for, in order.
   * Any other pattern (an unescaped special character, a backslash before an
   * ordinary character, a trailing backslash) is outside this fragment: None.
   */
  function Branches(p: string): (r: Option<seq<string>>)
    ensures r.Some? ==> |r.value| > 0
    decreases |p|
  {
    if p == [] then Some([[]])
    else if p[0] == '|' then
      (match Branches(p[1..])
       case None => None
       case Some(bs) => Some([[]] + bs))
    else if p[0] == '\\' then
      if |p| >= 2 && p[1] in Special then PrependChar(p[1], Branches(p[2..])) else None
    else if p[0] in Special then None
    else PrependChar(p[0], Branches(p[1..]))
  }

  /** `re.fullmatch`: some branch matches the whole text. */
  predicate FullMatch(p: string, text: string)
    requires Branches(p).Some?
  {
    text in Branches(p).value
  }

  /** What the pattern may match: `"|".join([])` is the empty pattern, which matches "". */
  function Alternatives(symbols: seq<string>): seq<string> {
    if symbols == [] then [""] else symbols
  }

  /** An escaped string stands for itself at the head of the first branch. */
  lemma {:induction false} EscapeBranches(s: string, rest: string)
    requires Branches(rest).Some?
    ensures Branches(Escape(s) + rest)
            == Some([s + Branches(rest).value[0]] + Branches(rest).value[1..])
    decreases |s|
  {
    var bs := Branches(rest).value;
    if s == [] {
      assert Escape(s) + rest == rest;
      assert s + bs[0] == bs[0];
      assert [bs[0]] + bs[1..] == bs;
    } else {
      EscapeBranches(s[1..], rest);
      EscapeBranchesStep(s, rest);
    }
  }

  /** The step of `EscapeBranches`: from the rest of `s` to `s`, one escaped character more. */
  lemma EscapeBranchesStep(s: string, rest: string)
    requires s != [] && Branches(rest).Some?
    requires Branches(Escape(s[1..]) + rest)
             == Some([s[1..] + Branches(rest).value[0]] + Branches(rest).value[1..])
    ensures Branches(Escape(s) + rest)
            == Some([s + Branches(rest).value[0]] + Branches(rest).value[1..])
  {
    var bs := Branches(rest).value;
    var c := s[0];
    var tail := Escape(s[1..]) + rest;
    var tbs := [s[1..] + bs[0]] + bs[1..];
    assert Branches(tail) == Some(tbs);
    var head, more := EscapeChar(c), Escape(s[1..]);
    assert Escape(s) == head + more;
    ConcatAssoc(head, more, rest);
    EscapeCharBranches(c, tail);
    assert Branches(Escape(s) + rest) == Some([[c] + tbs[0]] + tbs[1..]);
    assert tbs[0] == s[1..] + bs[0];
    ConsConcat(s, bs[0]);
    assert tbs[1..] == bs[1..];
  }

  lemma ConcatAssoc(a: string, b: string, c: string)
    ensures (a + b) + c == a + (b + c)
  {
  }

  lemma ConsConcat(s: string, b: string)
    requires s != []
    ensures [s[0]] + (s[1..] + b) == s + b
  {
    assert [s[0]] + s[1..] == s;
  }

  /** One escaped character stands for itself at the head of the first branch. */
  lemma EscapeCharBranches(c: char, tail: string)
    ensures Branches(EscapeChar(c) + tail) == PrependChar(c, Branches(tail))
  {
    if c in Special {
      var p := ['\\', c] + tail;
      assert p[0] == '\\' && p[1] == c && p[2..] == tail;
    } else {
      var p := [c] + tail;
      assert p[0] == c && p[1..] == tail;
    }
  }

  /** The compiled pattern stands for exactly the valid symbols, in order. */
  lemma {:induction false} PatternBranches(symbols: seq<string>)
    ensures Branches(Pattern(symbols)) == Some(Alternatives(symbols))
    decreases |symbols|
  {
    if symbols == [] {
    } else if |symbols| == 1 {
      var e := Escape(symbols[0]);
      EscapeBranches(symbols[0], []);
      assert e + [] == e;
      assert EscapeAll(symbols) == [e];
      assert Pattern(symbols) == e;
      var none: seq<string> := [[]];
      assert Branches([]) == Some(none);
      assert symbols[0] + none[0] == symbols[0];
      assert [symbols[0] + none[0]] + none[1..] == symbols;
    } else {
      var rest := symbols[1..];
      PatternBranches(rest);
      PatternCons(symbols);
      var p := ['|'] + Pattern(rest);
      BarBranches(Pattern(rest));
      EscapeBranches(symbols[0], p);
      assert symbols[0] + [] == symbols[0];
      assert ([[]] + rest)[1..] == rest;
      assert [symbols[0]] + rest == symbols;
    }
  }

  lemma PatternCons(symbols: seq<string>)
    requires |symbols| >= 2
    ensures Pattern(symbols) == Escape(symbols[0]) + (['|'] + Pattern(symbols[1..]))
  {
    assert EscapeAll(symbols)[1..] == EscapeAll(symbols[1..]);
  }

  /** A leading `|` opens an empty first branch. */
  lemma BarBranches(tail: string)
    requires Branches(tail).Some?
    ensures Branches(['|'] + tail) == Some([[]] + Branches(tail).value)
  {
    var p := ['|'] + tail;
    assert p[0] == '|' && p[1..] == tail;
  }

  /**
   * `has_valid_input`: a full match of the escaped alternation is membership in
   * the symbol list; with no symbols at all, only the empty text matches.
   */
  lemma HasValidInputIsMembership(symbols: seq<string>, text: string)
    ensures Branches(Pattern(symbols)).Some?
    ensures FullMatch(Pattern(symbols), text) <==> text in Alternatives(symbols)
    ensures symbols != [] ==> (FullMatch(Pattern(symbols), text) <==> text in symbols)
    ensures symbols == [] ==> (FullMatch(Pattern(symbols), text) <==> text == "")
  {
    PatternBranches(symbols);
  }

  // ---------------------------------------------------------------------------
  // Prefixes, upper-casing and the text the widget settles on

  /**
   * `__has_valid_suffix`: the text is the start of some valid symbol. A whole
   * valid symbol is one, and "" is one exactly when there is some symbol.
   */
  predicate IsValidPrefix(text: string, symbols: seq<string>)
    ensures text in symbols ==> IsValidPrefix(text, symbols)
    ensures text == [] ==> (IsValidPrefix(text, symbols) <==> symbols != [])
  {
    var found := exists i :: 0 <= i < |symbols| && text <= symbols[i];
    assert text in symbols ==> found by {
      if text in symbols {
        var i :| 0 <= i < |symbols| && symbols[i] == text;
        assert text <= symbols[i];
      }
    }
    assert text == [] && symbols != [] ==> found by {
      if text == [] && symbols != [] {
        assert text <= symbols[0];
      }
    }
    found
  }

  /** With no symbols, "" is valid input yet not a valid prefix. */
  lemma EmptyListEdgeCase()
    ensures FullMatch(Pattern([]), "")
    ensures !IsValidPrefix("", [])
  {
    HasValidInputIsMembership([], "");
  }

  /** A prefix of a valid prefix is a valid prefix. */
  lemma ValidPrefixShrinks(text: string, shorter: string, symbols: seq<string>)
    requires IsValidPrefix(text, symbols) && shorter <= text
    ensures IsValidPrefix(shorter, symbols)
  {
    var i :| 0 <= i < |symbols| && text <= symbols[i];
    assert shorter <= symbols[i];
  }

  /** `str.upper` on one character (ASCII letters only). */
  function UpperChar(c: char): char {
    if 'a' <= c <= 'z' then (c as int - 32) as char else c
  }

  /** `str.upper`: one character for each character of `s`. */
  function Upper(s: string): (u: string)
    ensures |u| == |s|
    decreases |s|
  {
    if s == [] then [] else [UpperChar(s[0])] + Upper(s[1..])
  }

  predicate IsUpper(s: string) {
    forall i :: 0 <= i < |s| ==> !('a' <= s[i] <= 'z')
  }

  /** Upper-casing keeps the length and each character's place, and leaves no lower-case letter. */
  lemma {:induction false} UpperShape(s: string)
    ensures |Upper(s)| == |s|
    ensures forall i :: 0 <= i < |s| ==> Upper(s)[i] == UpperChar(s[i])
    ensures IsUpper(Upper(s))
    decreases |s|
  {
    if s != [] {
      UpperShape(s[1..]);
    }
  }

  /** Upper-case text is its own upper-case form. */
  lemma {:induction false} UpperOfUpper(s: string)
    requires IsUpper(s)
    ensures Upper(s) == s
    decreases |s|
  {
    if s != [] {
      assert IsUpper(s[1..]) by {
        forall i | 0 <= i < |s[1..]| ensures !('a' <= s[1..][i] <= 'z') {
          assert s[1..][i] == s[i + 1];
        }
      }
      UpperOfUpper(s[1..]);
      assert !('a' <= s[0] <= 'z');
      assert s == [s[0]] + s[1..];
    }
  }

  /** What one backspace leaves, with the cursor at the end. */
  function DropLast(s: string): string {
    if s == [] then s else s[..|s| - 1]
  }

  /**
   * The net effect of the `textChanged` cascade on a text that is already
   * upper-case: drop the last character until the text is a valid prefix or empty.
   */
  function Settle(text: string, symbols: seq<string>): (r: string)
    ensures r <= text
    ensures r == [] || IsValidPrefix(r, symbols)
    decreases |text|
  {
    if text == [] || IsValidPrefix(text, symbols) then text
    else Settle(text[..|text| - 1], symbols)
  }

  /** Settling keeps a prefix, stops at a valid prefix or at "", and removes no more than needed. */
  lemma {:induction false} SettleIsLongestValidPrefix(text: string, symbols: seq<string>)
    ensures Settle(text, symbols) <= text
    ensures Settle(text, symbols) == [] || IsValidPrefix(Settle(text, symbols), symbols)
    ensures forall k :: |Settle(text, symbols)| < k <= |text| ==> !IsValidPrefix(text[..k], symbols)
    decreases |text|
  {
    if text == [] || IsValidPrefix(text, symbols) {
    } else {
      var shorter := text[..|text| - 1];
      SettleIsLongestValidPrefix(shorter, symbols);
      forall k | |Settle(text, symbols)| < k <= |text| ensures !IsValidPrefix(text[..k], symbols) {
        if k < |text| {
          assert text[..k] == shorter[..k];
        } else {
          assert text[..k] == text;
        }
      }
    }
  }

  /** A valid prefix or "" is already settled. */
  lemma SettleOfSettled(text: string, symbols: seq<string>)
    requires text == [] || IsValidPrefix(text, symbols)
    ensures Settle(text, symbols) == text
  {
  }

  /** Settling twice is settling once. */
  lemma SettleIdempotent(text: string, symbols: seq<string>)
    ensures Settle(Settle(text, symbols), symbols) == Settle(text, symbols)
  {
    SettleIsLongestValidPrefix(text, symbols);
    SettleOfSettled(Settle(text, symbols), symbols);
  }

  /** Dropping characters from the end keeps text upper-case. */
  lemma PrefixOfUpper(s: string, k: nat)
    requires IsUpper(s) && k <= |s|
    ensures IsUpper(s[..k])
  {
    forall i | 0 <= i < k ensures !('a' <= s[..k][i] <= 'z') {
      assert s[..k][i] == s[i];
    }
  }

  // ---------------------------------------------------------------------------
  // The widget

  class SymbolLineEdit {
    var text: string
    const validSymbols: seq<string>

    /** Between edits the text is upper-case and is "" or the start of some valid symbol. */
    predicate Valid()
      reads this
    {
      IsUpper(text) && (text == [] || IsValidPrefix(text, validSymbols))
    }

    constructor (symbols: seq<string>)
      ensures validSymbols == symbols && text == []
      ensures Valid()
    {
      validSymbols := symbols;
      text := [];
    }

    /**
     * `has_valid_input`: the compiled pattern matches the whole text, which holds
     * exactly when the text is one of the symbols (or "" when there are none).
     */
    predicate HasValidInput()
      reads this
      ensures HasValidInput() <==> text in Alternatives(validSymbols)
    {
      HasValidInputIsMembership(validSymbols, text);
      FullMatch(Pattern(validSymbols), text)
    }

    /** `__has_valid_suffix`: scan the symbols, stop at the first one that starts with the text. */
    method HasValidSuffix() returns (b: bool)
      ensures b <==> IsValidPrefix(text, validSymbols)
    {
      var i := 0;
      while i < |validSymbols|
        invariant 0 <= i <= |validSymbols|
        invariant forall j :: 0 <= j < i ==> !(text <= validSymbols[j])
      {
        if text <= validSymbols[i] {
          return true;
        }
        i := i + 1;
      }
      return false;
    }

    /** `QLineEdit.backspace` with the cursor at the end. */
    method Backspace()
      modifies this
      ensures text == DropLast(old(text))
    {
      if text != [] {
        text := text[..|text| - 1];
      }
    }

    /** `__remove_any_invalid_suffix`: one backspace when the text starts no valid symbol. */
    method RemoveAnyInvalidSuffix()
      modifies this
      ensures IsValidPrefix(old(text), validSymbols) ==> text == old(text)
      ensures !IsValidPrefix(old(text), validSymbols) ==> text == DropLast(old(text))
    {
      var ok := HasValidSuffix();
      if !ok {
        Backspace();
      }
    }

    /**
     * An edit that sets the text to `newText`, followed by the `textChanged`
     * cascade: the upper-casing handler, then backspaces until the text is a
     * valid prefix or empty. Each handler's own change re-emits the signal;
     * an edit that changes nothing emits nothing.
     */
    method SetText(newText: string)
      requires Valid()
      modifies this
      ensures Valid()
      ensures text == Settle(Upper(newText), validSymbols)
    {
      if newText == text {
        UpperOfUpper(text);
        SettleOfSettled(text, validSymbols);
        return;
      }
      UpperShape(newText);
      text := Upper(newText);
      var ok := HasValidSuffix();
      while !ok && text != []
        invariant IsUpper(text)
        invariant Settle(text, validSymbols) == Settle(Upper(newText), validSymbols)
        invariant ok <==> IsValidPrefix(text, validSymbols)
        decreases |text|
      {
        PrefixOfUpper(text, |text| - 1);
        RemoveAnyInvalidSuffix();
        ok := HasValidSuffix();
      }
    }
  }
}
