/** Name and type utilities of table-utils.js: type-string parsing, the
    digit-suffix rewrite, table-name normalisation and the identifier
    transforms. The `case` and `pluralize` libraries are passed in as
    arbitrary functions, so every property below holds for any of them. */
module TableUtils {
  import opened JsValues

  /** The object `parseType` builds: its `type` key is `typeName` here, and
      `length` is present only when the type string had a qualifier. */
  datatype TypeDescriptor = TypeDescriptor(typeName: string, length: Option<JsValue>)

  // ---------------------------------------------------------------------
  // tryParseInt and parseType

  /** `tryParseInt(value, defaultValue)`; `None` is JavaScript `null`. */
  function TryParseInt(value: Option<string>, defaultValue: JsValue): JsValue
  {
    match value
    // isNaN(null) is false and parseInt(null) parses the text "null"
    case None => NaN
    case Some(s) =>
      if IsDigits(s) then Num(DecimalValue(s))
      else if Truthy(defaultValue) then defaultValue
      else Str(s)
  }

  /** A decimal number survives a trip through its spelling, whatever the default. */
  lemma TryParseIntRoundTrip(n: nat, defaultValue: JsValue)
    ensures TryParseInt(Some(DecimalString(n)), defaultValue) == Num(n)
  {
    DecimalRoundTrip(n);
  }

  /** A non-numeric string comes back as the default when that is truthy, and
      as itself otherwise; it never becomes a number. */
  lemma TryParseIntFallback(s: string, defaultValue: JsValue)
    requires !IsDigits(s)
    ensures !TryParseInt(Some(s), defaultValue).Num? || defaultValue.Num?
    ensures Truthy(defaultValue) ==> TryParseInt(Some(s), defaultValue) == defaultValue
    ensures !Truthy(defaultValue) ==> TryParseInt(Some(s), defaultValue) == Str(s)
  {
  }

  /** `type.replace(/\(/gi, " (")`. */
  function SpaceBeforeParens(s: string): string
  {
    if s == [] then [] else SpacedChar(s[0]) + SpaceBeforeParens(s[1..])
  }

  function SpacedChar(c: char): string
  {
    if c == '(' then " (" else [c]
  }

  /** `s.replace(/\(|\)/gi, "")`. */
  function RemoveParens(s: string): string
  {
    if s == [] then [] else ParenFree(s[0]) + RemoveParens(s[1..])
  }

  function ParenFree(c: char): string
  {
    if c == '(' || c == ')' then [] else [c]
  }

  predicate IsTypeDelimiter(c: char)
  {
    c == '(' || c == ' '
  }

  /** The text of `s` before its first `(` or space (all of `s` if it has none). */
  function BeforeDelimiter(s: string): (r: string)
    ensures |r| <= |s| && r == s[..|r|]
    ensures forall i :: 0 <= i < |r| ==> !IsTypeDelimiter(r[i])
    ensures |r| < |s| ==> IsTypeDelimiter(s[|r|])
  {
    if s == [] || IsTypeDelimiter(s[0]) then [] else [s[0]] + BeforeDelimiter(s[1..])
  }

  /** `parseType(type)`: `None` stands for the empty string, which is falsy
      and handed back unchanged. */
  function ParseType(raw: string): (r: Option<TypeDescriptor>)
    ensures r.None? <==> raw == ""
  {
    if raw == "" then None
    else
      var types := Split(SpaceBeforeParens(raw), ' ');
      Some(TypeDescriptor(
        types[0],
        if |types| > 1 then Some(TryParseInt(Some(RemoveParens(types[1])), Null)) else None))
  }

  /** The first space-separated token of the spaced string is the text before
      the first `(` or space, and there is a second token exactly when the
      type string holds a `(` or a space. */
  lemma {:induction false} SpacedTokens(s: string)
    ensures Split(SpaceBeforeParens(s), ' ')[0] == BeforeDelimiter(s)
    ensures |Split(SpaceBeforeParens(s), ' ')| > 1 <==> exists i :: 0 <= i < |s| && IsTypeDelimiter(s[i])
  {
    if s != [] {
      SpacedTokens(s[1..]);
      var rest := SpaceBeforeParens(s[1..]);
      if s[0] == '(' {
        assert SpaceBeforeParens(s) == [' '] + ("(" + rest);
        assert (" (" + rest)[1..] == "(" + rest;
      } else if s[0] == ' ' {
        assert SpaceBeforeParens(s) == [' '] + rest;
        assert ([' '] + rest)[1..] == rest;
      } else {
        assert SpaceBeforeParens(s) == [s[0]] + rest;
        assert ([s[0]] + rest)[1..] == rest;
        if exists i :: 0 <= i < |s[1..]| && IsTypeDelimiter(s[1..][i]) {
          var i :| 0 <= i < |s[1..]| && IsTypeDelimiter(s[1..][i]);
          assert IsTypeDelimiter(s[i + 1]);
        }
        if exists i :: 0 <= i < |s| && IsTypeDelimiter(s[i]) {
          var i :| 0 <= i < |s| && IsTypeDelimiter(s[i]);
          assert i > 0 && IsTypeDelimiter(s[1..][i - 1]);
        }
      }
    }
  }

  /** `parseType` keys the descriptor by the text before the first `(` or
      space, and adds a `length` exactly when a `(` or a space follows. */
  lemma ParseTypeShape(raw: string)
    requires raw != ""
    ensures ParseType(raw).Some?
    ensures ParseType(raw).value.typeName == BeforeDelimiter(raw)
    ensures ParseType(raw).value.length.Some? <==> exists i :: 0 <= i < |raw| && IsTypeDelimiter(raw[i])
  {
    SpacedTokens(raw);
  }

  lemma {:induction false} SpacingWithoutParens(s: string)
    requires '(' !in s
    ensures SpaceBeforeParens(s) == s
  {
    if s != [] {
      SpacingWithoutParens(s[1..]);
      assert [s[0]] + s[1..] == s;
    }
  }

  lemma {:induction false} RemoveParensWithout(s: string)
    requires '(' !in s && ')' !in s
    ensures RemoveParens(s) == s
  {
    if s != [] {
      RemoveParensWithout(s[1..]);
      assert [s[0]] + s[1..] == s;
    }
  }

  lemma {:induction false} RemoveParensAppend(a: string, b: string)
    ensures RemoveParens(a + b) == RemoveParens(a) + RemoveParens(b)
  {
    if a == [] {
      assert a + b == b;
    } else {
      var c, t := a[0], a[1..];
      RemoveParensAppend(t, b);
      assert RemoveParens(a + b) == ParenFree(c) + RemoveParens(t + b) by {
        assert (a + b)[0] == c && (a + b)[1..] == t + b;
      }
      AppendAssoc(ParenFree(c), RemoveParens(t), RemoveParens(b));
    }
  }

  lemma {:induction false} SpacingAppend(a: string, b: string)
    ensures SpaceBeforeParens(a + b) == SpaceBeforeParens(a) + SpaceBeforeParens(b)
  {
    if a == [] {
      assert a + b == b;
    } else {
      var c, t := a[0], a[1..];
      SpacingAppend(t, b);
      assert SpaceBeforeParens(a + b) == SpacedChar(c) + SpaceBeforeParens(t + b) by {
        assert (a + b)[0] == c && (a + b)[1..] == t + b;
      }
      AppendAssoc(SpacedChar(c), SpaceBeforeParens(t), SpaceBeforeParens(b));
    }
  }

  /** A type written `base(qualifier)` (no spaces, one `(`) gets `base` as its
      type and the qualifier, its parentheses removed, run through
      `tryParseInt` with a null default as its length. */
  lemma ParseTypeQualified(base: string, qualifier: string)
    requires forall i :: 0 <= i < |base| ==> !IsTypeDelimiter(base[i])
    requires forall i :: 0 <= i < |qualifier| ==> !IsTypeDelimiter(qualifier[i])
    ensures ParseType(base + "(" + qualifier)
         == Some(TypeDescriptor(base, Some(TryParseInt(Some(RemoveParens(qualifier)), Null))))
  {
    var tail := "(" + qualifier;
    SpacedQualified(base, qualifier);
    SplitQualified(base, qualifier);
    assert RemoveParens(tail) == RemoveParens(qualifier) by {
      RemoveParensAppend("(", qualifier);
    }
  }

  lemma SpacedCons(c: char, t: string)
    ensures SpaceBeforeParens([c] + t) == SpacedChar(c) + SpaceBeforeParens(t)
  {
    assert ([c] + t)[1..] == t;
  }

  lemma SpacedParenthesis(qualifier: string)
    requires '(' !in qualifier
    ensures SpaceBeforeParens("(" + qualifier) == [' '] + ("(" + qualifier)
  {
    SpacedCons('(', qualifier);
    SpacingWithoutParens(qualifier);
    AppendAssoc([' '], ['('], qualifier);
  }

  lemma SpacedQualified(base: string, qualifier: string)
    requires forall i :: 0 <= i < |base| ==> !IsTypeDelimiter(base[i])
    requires forall i :: 0 <= i < |qualifier| ==> !IsTypeDelimiter(qualifier[i])
    ensures SpaceBeforeParens(base + "(" + qualifier) == base + [' '] + ("(" + qualifier)
  {
    var tail := "(" + qualifier;
    assert base + "(" + qualifier == base + tail;
    assert '(' !in base && '(' !in qualifier by {
      assert IsTypeDelimiter('(');
    }
    SpacingAppend(base, tail);
    SpacingWithoutParens(base);
    SpacedParenthesis(qualifier);
    assert base + ([' '] + tail) == base + [' '] + tail;
  }

  lemma SplitQualified(base: string, qualifier: string)
    requires forall i :: 0 <= i < |base| ==> !IsTypeDelimiter(base[i])
    requires forall i :: 0 <= i < |qualifier| ==> !IsTypeDelimiter(qualifier[i])
    ensures Split(base + [' '] + ("(" + qualifier), ' ') == [base, "(" + qualifier]
  {
    var tail := "(" + qualifier;
    SplitConcat(base, ' ', tail);
    SplitWithoutSeparator(base, ' ');
    assert forall i :: 0 <= i < |tail| ==> tail[i] != ' ' by {
      forall i | 0 <= i < |tail| ensures tail[i] != ' ' {
        if i > 0 { assert tail[i] == qualifier[i - 1]; }
      }
    }
    SplitWithoutSeparator(tail, ' ');
  }

  /** A purely numeric qualifier becomes an integer: `varchar(255)` has length 255. */
  lemma ParseTypeNumericLength(base: string, digits: string)
    requires forall i :: 0 <= i < |base| ==> !IsTypeDelimiter(base[i])
    requires IsDigits(digits)
    ensures ParseType(base + "(" + digits + ")")
         == Some(TypeDescriptor(base, Some(Num(DecimalValue(digits)))))
  {
    var qualifier := digits + ")";
    assert base + "(" + digits + ")" == base + "(" + qualifier;
    assert forall i :: 0 <= i < |qualifier| ==> !IsTypeDelimiter(qualifier[i]) by {
      forall i | 0 <= i < |qualifier| ensures !IsTypeDelimiter(qualifier[i]) {
        if i < |digits| { assert qualifier[i] == digits[i]; }
      }
    }
    ParseTypeQualified(base, qualifier);
    RemoveParensAppend(digits, ")");
    assert '(' !in digits && ')' !in digits by {
      assert forall i :: 0 <= i < |digits| ==> IsDigit(digits[i]);
    }
    RemoveParensWithout(digits);
    assert RemoveParens(")") == [] by {
      assert RemoveParens(")") == ParenFree(')') + RemoveParens([]);
    }
    assert RemoveParens(qualifier) == digits;
  }

  /** A non-numeric qualifier is kept as text with every parenthesis removed:
      `enum('a','b')` has length `'a','b'`. */
  lemma ParseTypeTextLength(base: string, qualifier: string)
    requires forall i :: 0 <= i < |base| ==> !IsTypeDelimiter(base[i])
    requires forall i :: 0 <= i < |qualifier| ==> !IsTypeDelimiter(qualifier[i])
    requires !IsDigits(RemoveParens(qualifier))
    ensures ParseType(base + "(" + qualifier)
         == Some(TypeDescriptor(base, Some(Str(RemoveParens(qualifier)))))
  {
    ParseTypeQualified(base, qualifier);
  }

  /** Two space-separated words: the second becomes the length, so
      `character varying` has type `character` and length `varying`. */
  lemma ParseTypeTwoWords(first: string, second: string)
    requires forall i :: 0 <= i < |first| ==> !IsTypeDelimiter(first[i])
    requires forall i :: 0 <= i < |second| ==> !IsTypeDelimiter(second[i]) && second[i] != ')'
    ensures ParseType(first + " " + second)
         == Some(TypeDescriptor(first, Some(TryParseInt(Some(second), Null))))
  {
    SpacingWithoutParens(first + " " + second);
    SplitConcat(first, ' ', second);
    SplitWithoutSeparator(first, ' ');
    SplitWithoutSeparator(second, ' ');
    RemoveParensWithout(second);
  }

  // ---------------------------------------------------------------------
  // replace: the digit-suffix rewrite

  /** `replaceTemplate`: digits 1 to 8 spelled as Indonesian number words. */
  const ReplaceTemplate: map<char, string> := map[
    '1' := "satu", '2' := "dua", '3' := "tiga", '4' := "empat",
    '5' := "lima", '6' := "enam", '7' := "tujuh", '8' := "delapan"]

  /** The first digit of `s`, as `/\d/gi.exec(s)[0]` finds it. */
  function FirstDigit(s: string): (r: Option<char>)
    ensures r.Some? <==> exists i :: 0 <= i < |s| && IsDigit(s[i])
    ensures r.Some? ==> IsDigit(r.value) && exists i :: 0 <= i < |s| && s[i] == r.value && forall k :: 0 <= k < i ==> !IsDigit(s[k])
  {
    if s == [] then None
    else if IsDigit(s[0]) then Some(s[0])
    else
      var r := FirstDigit(s[1..]);
      if r.Some? then
        ghost var i :| 0 <= i < |s[1..]| && s[1..][i] == r.value && forall k :: 0 <= k < i ==> !IsDigit(s[1..][k]);
        assert s[i + 1] == r.value && forall k :: 0 <= k < i + 1 ==> !IsDigit(s[k]) by {
          forall k | 0 <= k < i + 1 ensures !IsDigit(s[k]) {
            if k > 0 { assert s[k] == s[1..][k - 1]; }
          }
        }
        r
      else
        assert forall i :: 1 <= i < |s| ==> s[i] == s[1..][i - 1];
        r
  }

  /** `/_\d$/gi.test(name)`. */
  predicate EndsWithDigitToken(name: string)
  {
    |name| >= 2 && name[|name| - 2] == '_' && IsDigit(name[|name| - 1])
  }

  /** `s.replace(new RegExp(suffix + "$", "gi"), by)` for a suffix of
      underscores and digits, whose matching ignores case trivially. */
  function ReplaceSuffix(s: string, suffix: string, replacement: string): string
  {
    if EndsWith(s, suffix) then s[..|s| - |suffix|] + replacement else s
  }

  /** `replace(name)`. */
  function Replace(name: string): string
  {
    if name != "" && EndsWithDigitToken(name) then
      var key := FirstDigit(name).value;
      if key in ReplaceTemplate then ReplaceSuffix(name, ['_', key], "_" + ReplaceTemplate[key])
      else name
    else name
  }

  /** When the rewrite fires: the name ends in `_` and a digit 1 to 8 that is
      also the first digit of the name. */
  predicate RewritesDigit(name: string)
  {
    EndsWithDigitToken(name) && '1' <= name[|name| - 1] <= '8'
    && FirstDigit(name) == Some(name[|name| - 1])
  }

  /** `replace` rewrites exactly the names `RewritesDigit` describes, turning
      the trailing digit into its word; every other name (a `_0` or `_9`
      suffix, a multi-digit suffix, a different first digit) is unchanged. */
  lemma ReplaceCharacterisation(name: string)
    ensures RewritesDigit(name) ==> Replace(name) == name[..|name| - 1] + ReplaceTemplate[name[|name| - 1]]
    ensures !RewritesDigit(name) ==> Replace(name) == name
  {
    if EndsWithDigitToken(name) {
      var key := FirstDigit(name).value;
      var d := name[|name| - 1];
      if key in ReplaceTemplate && key != d {
        assert name[|name| - 2..] != ['_', key];
      }
      if RewritesDigit(name) {
        assert name[|name| - 2..] == ['_', d];
        assert name[..|name| - 2] + "_" == name[..|name| - 1];
      }
    }
  }

  /** A rewritten name ends in a letter, so `replace` is idempotent. */
  lemma ReplaceIdempotent(name: string)
    ensures Replace(Replace(name)) == Replace(name)
  {
    ReplaceCharacterisation(name);
    if RewritesDigit(name) {
      var r := Replace(name);
      var w := ReplaceTemplate[name[|name| - 1]];
      assert r[|r| - 1] == w[|w| - 1];
      assert !IsDigit(r[|r| - 1]);
      ReplaceCharacterisation(r);
    }
  }

  // ---------------------------------------------------------------------
  // normalizeTableName, isColumnId and the identifier transforms

  /** Length of the leading `ms_`, `app_` or `tr_` (any letter case) that
      `^(ms|app|tr)_` matches, or 0. */
  function PrefixLength(s: string): (n: nat)
    ensures n <= |s|
  {
    if StartsWithIgnoringCase(s, "ms_") then 3
    else if StartsWithIgnoringCase(s, "app_") then 4
    else if StartsWithIgnoringCase(s, "tr_") then 3
    else 0
  }

  /** `s.replace(/(_id)$|^(ms|app|tr)_/gi, "")`: the global flag removes the
      leading prefix and then, from what follows it, a trailing `_id`. */
  function StripAffixes(s: string): string
  {
    var rest := s[PrefixLength(s)..];
    if EndsWithIgnoringCase(rest, "_id") then rest[..|rest| - 3] else rest
  }

  /** `normalizeTableName(name)`. */
  function NormalizeTableName(name: string): string
  {
    if name == "" then name else StripAffixes(Replace(name))
  }

  /** `isColumnId(columnName)`: the name ends in `_id` in any letter case. */
  predicate IsColumnId(columnName: string)
  {
    EndsWithIgnoringCase(columnName, "_id")
  }

  /** One of the three module prefixes, in any letter case. */
  predicate IsTablePrefix(p: string)
  {
    EqualIgnoringCase(p, "ms_") || EqualIgnoringCase(p, "app_") || EqualIgnoringCase(p, "tr_")
  }

  /** A leading module prefix is exactly what `^(ms|app|tr)_` removes. */
  lemma PrefixLengthOfPrefixed(prefix: string, rest: string)
    requires IsTablePrefix(prefix)
    ensures PrefixLength(prefix + rest) == |prefix|
  {
    var s := prefix + rest;
    assert s[..|prefix|] == prefix;
    if EqualIgnoringCase(prefix, "ms_") {
      assert StartsWithIgnoringCase(s, "ms_");
    } else if EqualIgnoringCase(prefix, "app_") {
      assert Lower(s[0]) == 'a';
      assert !StartsWithIgnoringCase(s, "ms_");
      assert StartsWithIgnoringCase(s, "app_");
    } else {
      assert Lower(s[0]) == 't';
      assert !StartsWithIgnoringCase(s, "ms_");
      assert !StartsWithIgnoringCase(s, "app_");
      assert StartsWithIgnoringCase(s, "tr_");
    }
  }

  /** Both affixes go: `ms_user_id`, `APP_user_ID` and `tr_user` all normalise
      to `user`, `ms_stage_9` to `stage_9`, `ms_stage_1_id` to `stage_1` and
      `ms_user_id_id` to `user_id`. Only one `_id` is removed, so a body that
      itself ends in `_id` keeps it when a suffix follows; the whole name must
      not be one the digit rewrite applies to, and without a prefix it must
      not start with one. */
  lemma NormalizeStripsBoth(prefix: string, body: string, suffix: string)
    requires IsTablePrefix(prefix) || (prefix == "" && PrefixLength(body + suffix) == 0)
    requires EqualIgnoringCase(suffix, "_id") || suffix == ""
    requires body != "" && !RewritesDigit(prefix + body + suffix)
    requires suffix == "" ==> !EndsWithIgnoringCase(body, "_id")
    ensures NormalizeTableName(prefix + body + suffix) == body
  {
    var name := prefix + body + suffix;
    ReplaceCharacterisation(name);
    assert Replace(name) == name;
    assert PrefixLength(name) == |prefix| by {
      if prefix != "" {
        assert name == prefix + (body + suffix);
        PrefixLengthOfPrefixed(prefix, body + suffix);
      } else {
        assert name == body + suffix;
      }
    }
    var rest := name[|prefix|..];
    assert rest == body + suffix;
    if suffix == "" {
      assert rest == body;
    } else {
      assert rest[|rest| - 3..] == suffix;
      assert rest[..|rest| - 3] == body;
    }
  }

  /** With a module prefix and no trailing `_id`, only the prefix is removed. */
  lemma StripPrefixOnly(prefix: string, rest: string)
    requires IsTablePrefix(prefix) && !EndsWithIgnoringCase(rest, "_id")
    ensures StripAffixes(prefix + rest) == rest
  {
    PrefixLengthOfPrefixed(prefix, rest);
    assert (prefix + rest)[|prefix|..] == rest;
  }

  /** Every number word ends in a letter other than `d` and holds no `_`. */
  lemma NumberWordEnd(d: char)
    requires d in ReplaceTemplate
    ensures |ReplaceTemplate[d]| >= 1
    ensures Lower(ReplaceTemplate[d][|ReplaceTemplate[d]| - 1]) != 'd'
    ensures forall i :: 0 <= i < |ReplaceTemplate[d]| ==> Lower(ReplaceTemplate[d][i]) != '_'
  {
  }

  /** A prefix ending in `_` that `s + w` starts with, where `w` holds no `_`,
      lies wholly inside `s`. */
  lemma PrefixInsideStem(s: string, w: string, c: char, p: string)
    requires |p| >= 1 && p[|p| - 1] == '_'
    requires forall i :: 0 <= i < |w| ==> Lower(w[i]) != '_'
    requires StartsWithIgnoringCase(s + w, p)
    ensures StartsWithIgnoringCase(s + [c], p)
  {
    var k := |p| - 1;
    assert Lower((s + w)[k]) == Lower(p[k]) == '_';
    assert k < |s|;
    assert (s + w)[..|p|] == s[..|p|] == (s + [c])[..|p|];
  }

  /** Spelling out the final digit of a name with no module prefix adds none. */
  lemma RewriteAddsNoPrefix(s: string, c: char, w: string)
    requires PrefixLength(s + [c]) == 0
    requires forall i :: 0 <= i < |w| ==> Lower(w[i]) != '_'
    ensures PrefixLength(s + w) == 0
  {
    if StartsWithIgnoringCase(s + w, "ms_") { PrefixInsideStem(s, w, c, "ms_"); }
    if StartsWithIgnoringCase(s + w, "app_") { PrefixInsideStem(s, w, c, "app_"); }
    if StartsWithIgnoringCase(s + w, "tr_") { PrefixInsideStem(s, w, c, "tr_"); }
  }

  /** A module prefix ends in `_`, so on its own it is never rewritten. */
  lemma PrefixNotRewritten(prefix: string)
    requires IsTablePrefix(prefix)
    ensures !RewritesDigit(prefix)
  {
    assert Lower(prefix[|prefix| - 1]) == '_';
  }

  /** The rewrite of a name ending in a rewritten body only touches the body. */
  lemma ReplaceInBody(prefix: string, body: string)
    requires body != "" && RewritesDigit(prefix + body)
    ensures Replace(prefix + body) == prefix + (body[..|body| - 1] + ReplaceTemplate[body[|body| - 1]])
  {
    var name := prefix + body;
    ReplaceCharacterisation(name);
    assert name[|name| - 1] == body[|body| - 1];
    assert name[..|name| - 1] == prefix + body[..|body| - 1];
  }

  /** The digits `1` to `8` are exactly the keys of the template. */
  lemma DigitHasWord(d: char)
    requires '1' <= d <= '8'
    ensures d in ReplaceTemplate
  {
  }

  /** A name with no module prefix that ends in `_` plus a digit keeps no
      prefix and no `_id` once that digit is spelled out, so the affix strip
      leaves it whole. */
  lemma SpelledOutKeptWhole(stem: string, d: char)
    requires d in ReplaceTemplate && PrefixLength(stem + [d]) == 0
    ensures StripAffixes(stem + ReplaceTemplate[d]) == stem + ReplaceTemplate[d]
  {
    var w := ReplaceTemplate[d];
    var rewritten := stem + w;
    NumberWordEnd(d);
    assert !EndsWithIgnoringCase(rewritten, "_id") by {
      assert rewritten[|rewritten| - 1] == w[|w| - 1];
    }
    RewriteAddsNoPrefix(stem, d, w);
    assert rewritten[PrefixLength(rewritten)..] == rewritten;
  }

  /** Without a module prefix the rewritten name is left whole by the
      stripping: `stage_1` normalises to `stage_satu`. */
  lemma NormalizeRewritesUnprefixed(body: string)
    requires PrefixLength(body) == 0 && RewritesDigit(body)
    ensures body[|body| - 1] in ReplaceTemplate
    ensures NormalizeTableName(body) == body[..|body| - 1] + ReplaceTemplate[body[|body| - 1]]
  {
    var d := body[|body| - 1];
    DigitHasWord(d);
    ReplaceCharacterisation(body);
    assert body[..|body| - 1] + [d] == body;
    SpelledOutKeptWhole(body[..|body| - 1], d);
  }

  /** With a module prefix the rewritten name loses only that prefix:
      `ms_stage_1` normalises to `stage_satu`. */
  lemma NormalizeRewritesPrefixed(prefix: string, body: string)
    requires IsTablePrefix(prefix) && RewritesDigit(prefix + body)
    ensures body != ""
    ensures body[|body| - 1] in ReplaceTemplate
    ensures NormalizeTableName(prefix + body) == body[..|body| - 1] + ReplaceTemplate[body[|body| - 1]]
  {
    PrefixNotRewritten(prefix);
    assert prefix + body != prefix;
    var d := body[|body| - 1];
    assert (prefix + body)[|prefix + body| - 1] == d;
    DigitHasWord(d);
    var w := ReplaceTemplate[d];
    var rewritten := body[..|body| - 1] + w;
    ReplaceInBody(prefix, body);
    assert !EndsWithIgnoringCase(rewritten, "_id") by {
      NumberWordEnd(d);
      assert rewritten[|rewritten| - 1] == w[|w| - 1];
    }
    StripPrefixOnly(prefix, rewritten);
  }

  /** A name the digit rewrite applies to is rewritten first and then
      stripped: `ms_stage_1` and `stage_1` both normalise to `stage_satu`.
      The number words end in a letter other than `d`, so no `_id` is left to
      remove, and hold no `_`, so no module prefix appears. */
  lemma NormalizeRewritesThenStrips(prefix: string, body: string)
    requires IsTablePrefix(prefix) || (prefix == "" && PrefixLength(body) == 0)
    requires RewritesDigit(prefix + body)
    ensures body != ""
    ensures body[|body| - 1] in ReplaceTemplate
    ensures NormalizeTableName(prefix + body) == body[..|body| - 1] + ReplaceTemplate[body[|body| - 1]]
  {
    if prefix == "" {
      assert prefix + body == body;
      NormalizeRewritesUnprefixed(body);
    } else {
      NormalizeRewritesPrefixed(prefix, body);
    }
  }

  /** `transformClassName(tableName)` over a given pascal-case function. */
  function TransformClassName(tableName: string, pascal: string -> string): string
  {
    if tableName == "" then tableName else pascal(NormalizeTableName(tableName))
  }

  /** `transformFieldName(columnName, isPlural)` over given camel-case and
      plural functions: only the digit rewrite applies, no affix stripping. */
  function TransformFieldName(columnName: string, isPlural: bool, camel: string -> string, plural: string -> string): string
  {
    if columnName == "" then columnName
    else if isPlural then camel(plural(Replace(columnName)))
    else camel(Replace(columnName))
  }

  /** A table's class name ignores its module prefix and `_id` ending, for any
      pascal-case function: `ms_user` and `user` give the same class. */
  lemma ClassNameIgnoresAffixes(prefix: string, body: string, suffix: string, pascal: string -> string)
    requires IsTablePrefix(prefix) || (prefix == "" && PrefixLength(body + suffix) == 0)
    requires EqualIgnoringCase(suffix, "_id") || suffix == ""
    requires body != "" && !RewritesDigit(prefix + body + suffix)
    requires suffix == "" ==> !EndsWithIgnoringCase(body, "_id")
    ensures TransformClassName(prefix + body + suffix, pascal) == pascal(body)
  {
    NormalizeStripsBoth(prefix, body, suffix);
  }

  /** A field name keeps its prefix and `_id` ending: for a plain column name
      the field name is the camel case of the raw name, unlike the class name. */
  lemma FieldNameKeepsAffixes(columnName: string, camel: string -> string, plural: string -> string)
    requires columnName != "" && !RewritesDigit(columnName)
    ensures TransformFieldName(columnName, false, camel, plural) == camel(columnName)
    ensures TransformFieldName(columnName, true, camel, plural) == camel(plural(columnName))
  {
    ReplaceCharacterisation(columnName);
  }

  /** A field name ending in `_d` (d from 1 to 8, the first digit of the name)
      is the field name of the spelled-out word. */
  lemma FieldNameDigitRewrite(stem: string, d: char, isPlural: bool, camel: string -> string, plural: string -> string)
    requires '1' <= d <= '8'
    requires FirstDigit(stem + "_" + [d]) == Some(d)
    ensures TransformFieldName(stem + "_" + [d], isPlural, camel, plural)
         == TransformFieldName(stem + "_" + ReplaceTemplate[d], isPlural, camel, plural)
  {
    var name := stem + "_" + [d];
    ReplaceCharacterisation(name);
    assert name[..|name| - 1] == stem + "_";
    ReplaceIdempotent(name);
  }

  // ---------------------------------------------------------------------
  // customTableMap

  /** An entry of `customTableMap`: a fixed table name, or the function that
      answers with the owning table's name. */
  datatype TableOverride = Fixed(table: string) | OwningTable

  /** `customTableMap`; the keys repeated in the source carry identical values
      and appear once here. */
  const CustomTableMap: map<string, TableOverride> := map[
    "create_by" := Fixed("ms_user"),
    "created_by" := Fixed("ms_user"),
    "update_by" := Fixed("ms_user"),
    "updated_by" := Fixed("ms_user"),
    "approved_by" := Fixed("ms_user"),
    "approve_by" := Fixed("ms_user"),
    "rejected_by" := Fixed("ms_user"),
    "reject_by" := Fixed("ms_user"),
    "revised_by" := Fixed("ms_user"),
    "next_workflow_stage" := Fixed("ms_workflow_stage"),
    "prev_workflow_stage" := Fixed("ms_workflow_stage"),
    "reject_workflow_stage" := Fixed("ms_workflow_stage"),
    "reference_workflow_stage" := Fixed("ms_workflow_stage"),
    "reference_workflow_stage_id" := Fixed("ms_workflow_stage"),
    "revised_workflow_stage_id" := Fixed("ms_workflow_stage"),
    "revised_workflow_stage" := Fixed("ms_workflow_stage"),
    "previous_workflow_data_id" := Fixed("app_workflow_data"),
    "previous_workflow_data" := Fixed("app_workflow_data"),
    "next_question_id" := Fixed("ms_question"),
    "next_question" := Fixed("ms_question"),
    "revised_by_id" := Fixed("ms_user"),
    "parent_id" := OwningTable,
    "parent" := OwningTable]

  /** The table an entry of `customTableMap` names for a column of `tableName`. */
  function CustomTable(columnName: string, tableName: string): (r: Option<string>)
    ensures r.Some? <==> columnName in CustomTableMap
    ensures columnName in CustomTableMap && CustomTableMap[columnName].OwningTable? ==> r == Some(tableName)
  {
    if columnName !in CustomTableMap then None
    else match CustomTableMap[columnName]
      case Fixed(t) => Some(t)
      case OwningTable => Some(tableName)
  }

  /** Only the `parent` entries depend on the owning table; every other entry
      names a prefixed table regardless of where the column lives. */
  lemma CustomTableOwnerOnlyForParent(columnName: string, owner1: string, owner2: string)
    requires columnName in CustomTableMap
    ensures columnName != "parent" && columnName != "parent_id"
        ==> CustomTable(columnName, owner1) == CustomTable(columnName, owner2)
            && CustomTable(columnName, owner1).value in {"ms_user", "ms_workflow_stage", "app_workflow_data", "ms_question"}
    ensures columnName == "parent" || columnName == "parent_id" ==> CustomTable(columnName, owner1) == Some(owner1)
  {
  }
}
