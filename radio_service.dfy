/** The now-playing text handling of the radio service: the smart title
    case, the "Artist - Title" splitter, and the mapping of the backend's
    current-song reply onto a `CurrentSong`. */
module RadioService {
  import opened Wrappers
  import opened Text

  // Smart title case

  /** The list the source checks each lower-cased word against. The two
      upper-case entries can never equal a lower-cased word. */
  const PreservePatterns: seq<string> := ["DJ", "MC", "ft", "feat", "vs", "x"]

  predicate IsPreserved(lower: string) {
    exists p | p in PreservePatterns :: lower == p || lower == p + "."
  }

  predicate IsBracket(c: char) {
    c == '(' || c == '['
  }

  predicate NoBracket(s: string) {
    forall i :: 0 <= i < |s| ==> !IsBracket(s[i])
  }

  /** First character upper-cased, the rest lower-cased; "" stays "". */
  function Capitalize(part: string): string {
    if part == [] then [] else [UpperChar(part[0])] + Lower(part[1..])
  }

  /** `word.split(/([(\[])/g)`: the segments between brackets, with each
      bracket kept as a part of its own, so parts alternate segment,
      bracket, segment, ..., segment. */
  function BracketParts(word: string): (r: seq<string>)
    ensures |r| % 2 == 1
    ensures forall i :: 0 <= i < |r| && i % 2 == 0 ==> NoBracket(r[i])
    ensures forall i :: 0 <= i < |r| && i % 2 == 1 ==> |r[i]| == 1 && IsBracket(r[i][0])
  {
    if word == [] then [""]
    else
      var rest := BracketParts(word[1..]);
      if IsBracket(word[0]) then
        var r := ["", [word[0]]] + rest;
        assert forall i :: 2 <= i < |r| ==> r[i] == rest[i - 2];
        r
      else
        var r := [[word[0]] + rest[0]] + rest[1..];
        assert forall i :: 1 <= i < |r| ==> r[i] == rest[i];
        r
  }

  /** The bracket split loses nothing: `.join('')` of the parts gives back
      the word. */
  lemma {:induction false} BracketPartsConcat(word: string)
    ensures Join(BracketParts(word), "") == word
  {
    if word != [] {
      var rest := BracketParts(word[1..]);
      BracketPartsConcat(word[1..]);
      if IsBracket(word[0]) {
        var r := ["", [word[0]]] + rest;
        assert r[1..] == [[word[0]]] + rest;
        JoinCons([word[0]], rest, "");
        assert r == [""] + r[1..];
        JoinCons("", r[1..], "");
        assert word == [word[0]] + word[1..];
      } else {
        var r := [[word[0]] + rest[0]] + rest[1..];
        if |rest| > 1 {
          assert rest == [rest[0]] + rest[1..];
          JoinCons(rest[0], rest[1..], "");
          JoinCons([word[0]] + rest[0], rest[1..], "");
        }
        assert word == [word[0]] + word[1..];
      }
    }
  }

  /** The per-part step of the bracket case: brackets stay, other parts are capitalised. */
  function CapitalizePart(part: string): string {
    if part == "(" || part == "[" then part else Capitalize(part)
  }

  /** `parts.map(CapitalizePart).join('')`. */
  function CapitalizeParts(parts: seq<string>): string {
    if parts == [] then "" else CapitalizePart(parts[0]) + CapitalizeParts(parts[1..])
  }

  /** The per-word step of `smartTitleCase`. */
  function TitleWord(word: string): string {
    var lower := Lower(word);
    if IsPreserved(lower) then lower
    else if '(' in word || '[' in word then CapitalizeParts(BracketParts(word))
    else Capitalize(word)
  }

  /** `smartTitleCase`: split on single spaces, re-case each word, rejoin with single spaces. */
  function SmartTitleCase(s: string): string {
    Join(TitleWords(Split(s, ' ')), " ")
  }

  function TitleWords(words: seq<string>): (r: seq<string>)
    ensures |r| == |words|
  {
    seq(|words|, i requires 0 <= i < |words| => TitleWord(words[i]))
  }

  // What the title case does, stated character by character

  /** Per-character recasing of a text whose first character is upper-cased
      when `up` holds: every later character is upper-cased when it follows a
      bracket, and lower-cased otherwise. The flag lets a proof walk past
      the word's first character, whose case differs from its successors'. */
  function CaseFrom(v: string, up: bool): (r: string)
    ensures |r| == |v|
  {
    seq(|v|, i requires 0 <= i < |v| =>
      if (i == 0 && up) || (i > 0 && IsBracket(v[i - 1])) then UpperChar(v[i]) else LowerChar(v[i]))
  }

  /** Reference definition: a character is upper-cased when it starts the
      word or follows a bracket, and lower-cased otherwise. */
  function Recased(w: string): (r: string)
    ensures |r| == |w|
  {
    CaseFrom(w, true)
  }

  lemma CaseFromCons(v: string, up: bool)
    requires v != []
    ensures CaseFrom(v, up) == [if up then UpperChar(v[0]) else LowerChar(v[0])] + CaseFrom(v[1..], IsBracket(v[0]))
  {
    var r := CaseFrom(v, up);
    var rhs := [if up then UpperChar(v[0]) else LowerChar(v[0])] + CaseFrom(v[1..], IsBracket(v[0]));
    forall i | 0 <= i < |r| ensures r[i] == rhs[i] {
      if i > 0 {
        assert v[1..][i - 1] == v[i];
        if i > 1 {
          assert v[1..][i - 2] == v[i - 1];
        }
      }
    }
  }

  /** The case `up` asks for applied to a leading segment: `Capitalize` for
      a segment that starts the word or follows a bracket, `Lower` for the
      rest of a segment once its first character is consumed. */
  function LeadCase(up: bool, part: string): string {
    if up then Capitalize(part) else Lower(part)
  }

  lemma LeadCaseCons(up: bool, c: char, rest: string)
    ensures LeadCase(up, [c] + rest) == [if up then UpperChar(c) else LowerChar(c)] + Lower(rest)
  {
    if up {
      assert ([c] + rest)[1..] == rest;
    } else {
      LowerConcat([c], rest);
      assert Lower([c]) == [LowerChar(c)];
    }
  }

  lemma CapitalizeBracketFree(part: string)
    requires NoBracket(part)
    ensures CapitalizePart(part) == Capitalize(part)
  {
    if |part| == 1 { assert !IsBracket(part[0]); }
  }

  lemma BracketPartsUnfold(v: string)
    requires v != []
    ensures var rest := BracketParts(v[1..]);
      BracketParts(v) == if IsBracket(v[0]) then ["", [v[0]]] + rest else [[v[0]] + rest[0]] + rest[1..]
  {
  }

  /** The bracket case past an opening bracket: an empty leading segment,
      the bracket kept, and the next segment capitalised. */
  lemma OpeningStep(v: string, up: bool, rest: seq<string>)
    requires v != [] && IsBracket(v[0]) && rest != [] && NoBracket(rest[0])
    requires LeadCase(true, rest[0]) + CapitalizeParts(rest[1..]) == CaseFrom(v[1..], true)
    ensures var parts := ["", [v[0]]] + rest;
      LeadCase(up, parts[0]) + CapitalizeParts(parts[1..]) == CaseFrom(v, up)
  {
    CaseFromCons(v, up);
    assert (["", [v[0]]] + rest)[1..] == [[v[0]]] + rest;
    assert ([[v[0]]] + rest)[1..] == rest;
    CapitalizeBracketFree(rest[0]);
  }

  /** The bracket case past a letter: it joins the leading segment and
      takes that segment's case. */
  lemma LetterStep(v: string, up: bool, rest: seq<string>)
    requires v != [] && !IsBracket(v[0]) && rest != []
    requires LeadCase(false, rest[0]) + CapitalizeParts(rest[1..]) == CaseFrom(v[1..], false)
    ensures var parts := [[v[0]] + rest[0]] + rest[1..];
      LeadCase(up, parts[0]) + CapitalizeParts(parts[1..]) == CaseFrom(v, up)
  {
    var parts := [[v[0]] + rest[0]] + rest[1..];
    assert parts[0] == [v[0]] + rest[0] && parts[1..] == rest[1..];
    LeadCaseLetter(up, v[0], rest[0], CapitalizeParts(rest[1..]));
    CaseFromCons(v, up);
  }

  lemma LeadCaseLetter(up: bool, c: char, part: string, tail: string)
    ensures LeadCase(up, [c] + part) + tail == [if up then UpperChar(c) else LowerChar(c)] + (LeadCase(false, part) + tail)
  {
    LeadCaseCons(up, c, part);
  }

  /** The generalised invariant behind the bracket case: the first
      segment takes the case `up` asks for, every later one is capitalised. */
  lemma {:induction false} BracketCaseFrom(v: string, up: bool)
    ensures var parts := BracketParts(v);
      LeadCase(up, parts[0]) + CapitalizeParts(parts[1..]) == CaseFrom(v, up)
  {
    if v != [] {
      BracketPartsUnfold(v);
      var rest := BracketParts(v[1..]);
      if IsBracket(v[0]) {
        BracketCaseFrom(v[1..], true);
        OpeningStep(v, up, rest);
      } else {
        BracketCaseFrom(v[1..], false);
        LetterStep(v, up, rest);
      }
    }
  }

  lemma CapitalizeIsRecased(w: string)
    requires NoBracket(w)
    ensures Capitalize(w) == Recased(w)
  {
    if w != [] {
      var c := Capitalize(w);
      forall i | 0 <= i < |w| ensures c[i] == Recased(w)[i] {
        if i > 0 {
          assert !IsBracket(w[i - 1]);
          assert c[i] == Lower(w[1..])[i - 1];
        }
      }
    }
  }

  /** Every word that is not on the preserve list comes out with its first
      character and each character after a bracket upper-cased, all others
      lower-cased; a preserved word comes out fully lower-cased. */
  lemma TitleWordSpec(w: string)
    ensures TitleWord(w) == if IsPreserved(Lower(w)) then Lower(w) else Recased(w)
  {
    if !IsPreserved(Lower(w)) {
      if '(' in w || '[' in w {
        var parts := BracketParts(w);
        BracketCaseFrom(w, true);
        CapitalizeBracketFree(parts[0]);
      } else {
        CapitalizeIsRecased(w);
      }
    }
  }

  /** The words a title keeps in lower case. */
  const KeptWords: seq<string> := ["ft", "ft.", "feat", "feat.", "vs", "vs.", "x", "x."]

  lemma KeptArePreserved(lower: string)
    requires lower in KeptWords
    ensures IsPreserved(lower)
  {
    var i :| 0 <= i < |KeptWords| && KeptWords[i] == lower;
    var p := PreservePatterns[i / 2 + 2];
    assert p + "." == KeptWords[i] || p == KeptWords[i];
  }

  lemma PreservedAreKept(lower: string)
    requires IsPreserved(lower) && HasNoUpper(lower)
    ensures lower in KeptWords
  {
    var p :| p in PreservePatterns && (lower == p || lower == p + ".");
    var i :| 0 <= i < |PreservePatterns| && PreservePatterns[i] == p;
    assert lower != [] && !('A' <= lower[0] <= 'Z');
    if i < 2 {
    } else if lower == p {
      assert KeptWords[2 * i - 4] == lower;
    } else {
      assert KeptWords[2 * i - 3] == lower;
    }
  }

  /** The two upper-case entries of the preserve list never match, so only
      ft, feat, vs and x (with or without a trailing dot) are preserved. */
  lemma PreservedWords(w: string)
    ensures IsPreserved(Lower(w)) <==> Lower(w) in KeptWords
  {
    LowerHasNoUpper(w);
    if IsPreserved(Lower(w)) {
      PreservedAreKept(Lower(w));
    } else if Lower(w) in KeptWords {
      KeptArePreserved(Lower(w));
    }
  }

  /** `DJ` is not preserved: it is capitalised like any other word. */
  lemma DJBecomesDj()
    ensures TitleWord("DJ") == "Dj"
  {
    PreservedWords("DJ");
    assert Lower("DJ") == "dj";
    TitleWordSpec("DJ");
  }

  /** Title casing only changes the case of letters. */
  lemma TitleWordRecases(w: string)
    ensures Lower(TitleWord(w)) == Lower(w)
  {
    TitleWordSpec(w);
    forall i | 0 <= i < |w| ensures LowerChar(TitleWord(w)[i]) == LowerChar(w[i]) {
      LowerOfCase(w[i]);
    }
  }

  lemma {:induction false} LowerJoin(ws: seq<string>, vs: seq<string>, sep: string)
    requires |ws| == |vs|
    requires forall i :: 0 <= i < |ws| ==> Lower(ws[i]) == Lower(vs[i])
    ensures Lower(Join(ws, sep)) == Lower(Join(vs, sep))
  {
    if |ws| >= 2 {
      LowerJoin(ws[1..], vs[1..], sep);
      LowerConcat(ws[0] + sep, Join(ws[1..], sep));
      LowerConcat(vs[0] + sep, Join(vs[1..], sep));
      LowerConcat(ws[0], sep);
      LowerConcat(vs[0], sep);
    }
  }

  /** `smartTitleCase` only changes the case of letters: it keeps the
      length, every space and every other non-letter in place. */
  lemma SmartTitleCaseRecases(s: string)
    ensures |SmartTitleCase(s)| == |s|
    ensures Lower(SmartTitleCase(s)) == Lower(s)
  {
    var words := Split(s, ' ');
    forall i | 0 <= i < |words| ensures Lower(TitleWords(words)[i]) == Lower(words[i]) {
      TitleWordRecases(words[i]);
    }
    LowerJoin(TitleWords(words), words, " ");
    JoinSplit(s, ' ');
  }

  /** Splitting the result on spaces gives the input's words, each
      title-cased: the word count, empty words included, is preserved. */
  lemma SmartTitleCaseWords(s: string)
    ensures Split(SmartTitleCase(s), ' ') == TitleWords(Split(s, ' '))
  {
    var words := Split(s, ' ');
    var titled := TitleWords(words);
    forall i | 0 <= i < |titled| ensures ' ' !in titled[i] {
      TitleWordRecases(words[i]);
      forall k | 0 <= k < |titled[i]| ensures titled[i][k] != ' ' {
        assert Lower(titled[i])[k] == Lower(words[i])[k];
      }
    }
    SplitJoin(titled, ' ');
  }

  /** Whether a character is whitespace survives title casing. */
  lemma SmartTitleCaseKeepsWhitespace(s: string)
    ensures |SmartTitleCase(s)| == |s|
    ensures forall i :: 0 <= i < |s| ==> (IsWhitespace(SmartTitleCase(s)[i]) <==> IsWhitespace(s[i]))
  {
    SmartTitleCaseRecases(s);
    var r := SmartTitleCase(s);
    forall i | 0 <= i < |s| ensures IsWhitespace(r[i]) <==> IsWhitespace(s[i]) {
      assert Lower(r)[i] == Lower(s)[i];
    }
  }

  // Artist - title splitting

  /** The separators `parseSongString` tries, in this order: hyphen,
      en dash and em dash, pipe and slash, each with a space on both sides. */
  const Separators: seq<string> := [" - ", " \U{2013} ", " \U{2014} ", " | ", " / "]

  datatype SongParts = SongParts(artist: string, title: string)

  /** The trimmed text before the first occurrence of `sep`. */
  function ArtistSide(text: string, sep: string): string
    requires IndexOf(text, sep).Some?
  {
    Trim(text[..IndexOf(text, sep).value])
  }

  /** The trimmed text after the first occurrence of `sep`. */
  function TitleSide(text: string, sep: string): string
    requires IndexOf(text, sep).Some?
  {
    Trim(text[IndexOf(text, sep).value + |sep|..])
  }

  /** A separator is used when its first occurrence is past position 0
      and leaves non-blank text on both sides. */
  predicate Qualifies(text: string, sep: string) {
    IndexOf(text, sep).Some? && IndexOf(text, sep).value > 0 && ArtistSide(text, sep) != "" && TitleSide(text, sep) != ""
  }

  /** The artist and title a qualifying separator splits `text` into:
      the two sides of its first occurrence, with only letter case changed. */
  function PartsAt(text: string, sep: string): (r: SongParts)
    requires Qualifies(text, sep)
    ensures Lower(r.artist) == Lower(ArtistSide(text, sep)) && Lower(r.title) == Lower(TitleSide(text, sep))
  {
    var artist := ArtistSide(text, sep);
    var title := TitleSide(text, sep);
    SmartTitleCaseRecases(artist);
    SmartTitleCaseRecases(title);
    SongParts(SmartTitleCase(artist), SmartTitleCase(title))
  }

  /** Both sides of a qualifying split are non-blank and carry no surrounding whitespace. */
  lemma PartsAtTrimmed(text: string, sep: string)
    requires Qualifies(text, sep)
    ensures var p := PartsAt(text, sep);
      p.artist != "" && p.title != ""
      && !IsWhitespace(p.artist[0]) && !IsWhitespace(p.artist[|p.artist| - 1])
      && !IsWhitespace(p.title[0]) && !IsWhitespace(p.title[|p.title| - 1])
  {
    SmartTitleCaseKeepsWhitespace(ArtistSide(text, sep));
    SmartTitleCaseKeepsWhitespace(TitleSide(text, sep));
  }

  /** One round of the separator loop: split at the separator's first
      occurrence if that lies past position 0 and both trimmed sides are
      non-blank. */
  function TrySeparator(text: string, sep: string): Option<SongParts> {
    match IndexOf(text, sep)
    case Some(index) =>
      if index > 0 then
        var artist := Trim(text[..index]);
        var title := Trim(text[index + |sep|..]);
        if artist != "" && title != "" then Some(SongParts(SmartTitleCase(artist), SmartTitleCase(title)))
        else None
      else None
    case None => None
  }

  /** The value of the first element for which `f` succeeds, trying them in order. */
  function FirstSuccess<T, U>(f: T -> Option<U>, xs: seq<T>): Option<U> {
    if xs == [] then None
    else match f(xs[0])
      case Some(u) => Some(u)
      case None => FirstSuccess(f, xs[1..])
  }

  /** `parseSongString`: the separators are tried in list order and the
      first split that succeeds is returned; null when none does. */
  function ParseSongString(text: string): Option<SongParts> {
    FirstSuccess(Attempt(text), Separators)
  }

  /** The loop body as a function of the separator. */
  function Attempt(text: string): string -> Option<SongParts> {
    sep => TrySeparator(text, sep)
  }

  /** The search returns the outcome of the first element that succeeds. */
  lemma {:induction false} FirstSuccessIsFirst<T, U>(f: T -> Option<U>, xs: seq<T>, k: nat)
    requires k < |xs| && f(xs[k]).Some?
    requires forall j :: 0 <= j < k ==> f(xs[j]).None?
    ensures FirstSuccess(f, xs) == f(xs[k])
  {
    if k > 0 {
      assert f(xs[0]).None?;
      forall j | 0 <= j < k - 1 ensures f(xs[1..][j]).None? {
        assert xs[1..][j] == xs[j + 1];
      }
      FirstSuccessIsFirst(f, xs[1..], k - 1);
    }
  }

  /** A successful search returns the outcome of one of the elements. */
  lemma {:induction false} FirstSuccessFrom<T, U>(f: T -> Option<U>, xs: seq<T>)
    requires FirstSuccess(f, xs).Some?
    ensures exists k :: 0 <= k < |xs| && f(xs[k]) == FirstSuccess(f, xs)
  {
    if f(xs[0]).None? {
      FirstSuccessFrom(f, xs[1..]);
      var k :| 0 <= k < |xs[1..]| && f(xs[1..][k]) == FirstSuccess(f, xs[1..]);
      assert xs[1..][k] == xs[k + 1];
    }
  }

  /** The search fails exactly when every element fails. */
  lemma {:induction false} FirstSuccessNone<T, U>(f: T -> Option<U>, xs: seq<T>)
    ensures FirstSuccess(f, xs).None? <==> forall k :: 0 <= k < |xs| ==> f(xs[k]).None?
  {
    if xs != [] {
      FirstSuccessNone(f, xs[1..]);
      if f(xs[0]).None? {
        forall k | 1 <= k < |xs| ensures xs[k] == xs[1..][k - 1] { }
      }
    }
  }

  /** One round succeeds exactly when the separator qualifies, and then yields its split. */
  lemma TrySeparatorSpec(text: string, sep: string)
    ensures TrySeparator(text, sep) == if Qualifies(text, sep) then Some(PartsAt(text, sep)) else None
  {
    if IndexOf(text, sep).Some? {
      var index := IndexOf(text, sep).value;
      var artist, title := Trim(text[..index]), Trim(text[index + |sep|..]);
      assert ArtistSide(text, sep) == artist && TitleSide(text, sep) == title;
      if Qualifies(text, sep) {
        assert PartsAt(text, sep) == SongParts(SmartTitleCase(artist), SmartTitleCase(title));
      }
    }
  }

  /** Separator `k` is the first in `seps` that qualifies. */
  predicate IsFirstQualifying(text: string, seps: seq<string>, k: int) {
    0 <= k < |seps| && Qualifies(text, seps[k]) && forall j :: 0 <= j < k ==> !Qualifies(text, seps[j])
  }

  /** Trying separators in order yields the split at the first qualifying one. */
  lemma TryFirstQualifying(text: string, seps: seq<string>, k: nat)
    requires IsFirstQualifying(text, seps, k)
    ensures FirstSuccess(Attempt(text), seps) == Some(PartsAt(text, seps[k]))
  {
    var f := Attempt(text);
    forall j | 0 <= j <= k ensures f(seps[j]) == if Qualifies(text, seps[j]) then Some(PartsAt(text, seps[j])) else None {
      TrySeparatorSpec(text, seps[j]);
    }
    FirstSuccessIsFirst(f, seps, k);
  }

  /** Trying separators in order fails exactly when none qualifies. */
  lemma TryNone(text: string, seps: seq<string>)
    ensures FirstSuccess(Attempt(text), seps).None? <==> forall k :: 0 <= k < |seps| ==> !Qualifies(text, seps[k])
  {
    var f := Attempt(text);
    forall k | 0 <= k < |seps| ensures f(seps[k]).None? <==> !Qualifies(text, seps[k]) {
      TrySeparatorSpec(text, seps[k]);
    }
    FirstSuccessNone(f, seps);
  }

  /** `parseSongString` splits at the first occurrence of the first
      qualifying separator; text after it, later separators included,
      stays in the title. */
  lemma ParseSongStringFirstMatch(text: string, k: nat)
    requires IsFirstQualifying(text, Separators, k)
    ensures ParseSongString(text) == Some(PartsAt(text, Separators[k]))
  {
    TryFirstQualifying(text, Separators, k);
  }

  /** `parseSongString` gives null exactly when no separator qualifies. */
  lemma ParseSongStringNone(text: string)
    ensures ParseSongString(text).None? <==> forall k :: 0 <= k < |Separators| ==> !Qualifies(text, Separators[k])
  {
    TryNone(text, Separators);
  }

  /** Whenever some separator qualifies, a first one does. */
  lemma {:induction false} FirstQualifyingExists(text: string, seps: seq<string>, k: int)
    requires 0 <= k < |seps| && Qualifies(text, seps[k])
    ensures exists f :: IsFirstQualifying(text, seps, f)
  {
    if !IsFirstQualifying(text, seps, k) {
      var j :| 0 <= j < k && Qualifies(text, seps[j]);
      FirstQualifyingExists(text, seps, j);
    }
  }

  /** A separator at the very start is never used: with no other separator
      in the text, parsing gives null. */
  lemma LeadingSeparatorSkipped(text: string)
    requires IndexOf(text, " - ") == Some(0)
    requires forall k :: 1 <= k < |Separators| ==> IndexOf(text, Separators[k]).None?
    ensures ParseSongString(text).None?
  {
    ParseSongStringNone(text);
  }

  /** Both parsed sides are non-blank and carry no surrounding whitespace. */
  lemma ParsedSidesTrimmed(text: string)
    requires ParseSongString(text).Some?
    ensures var p := ParseSongString(text).value;
      p.artist != "" && p.title != ""
      && !IsWhitespace(p.artist[0]) && !IsWhitespace(p.artist[|p.artist| - 1])
      && !IsWhitespace(p.title[0]) && !IsWhitespace(p.title[|p.title| - 1])
  {
    var f := Attempt(text);
    FirstSuccessFrom(f, Separators);
    var k :| 0 <= k < |Separators| && f(Separators[k]) == ParseSongString(text);
    TrySeparatorSpec(text, Separators[k]);
    PartsAtTrimmed(text, Separators[k]);
  }

  // The current-song reply

  /** The `data` field of the backend's reply: a string or anything else. */
  datatype SongField = TextField(text: string) | OtherField

  /** The outcome of the GET: an error (network failure, timeout, error
      status or an empty body) or a body with the truthiness of its
      `success` field and its `data` field. */
  datatype SongReply = RequestFailed | Body(success: bool, data: SongField)

  /** A `CurrentSong` as `getCurrentSong` builds it: title and artist are
      always set, `album` never is. */
  datatype CurrentSong = CurrentSong(title: string, artist: string, rawData: Option<string>)

  const FallbackSong: CurrentSong := CurrentSong("TruckSimFM", "Live Radio", None)

  function GetCurrentSong(reply: SongReply): (r: CurrentSong)
    ensures !(reply.Body? && reply.success && reply.data.TextField?) ==> r == FallbackSong
    ensures reply.Body? && reply.success && reply.data.TextField? ==>
      var raw := reply.data.text;
      r.rawData == Some(raw)
      && (ParseSongString(Trim(raw)).Some? ==>
            r.artist == ParseSongString(Trim(raw)).value.artist && r.title == ParseSongString(Trim(raw)).value.title)
      && (ParseSongString(Trim(raw)).None? ==>
            r.title == SmartTitleCase(Trim(raw)) && r.artist == "Unknown Artist")
  {
    if reply.Body? && reply.success then
      match reply.data
      case TextField(songText) =>
        var trimmed := Trim(songText);
        (match ParseSongString(trimmed)
         case Some(parsed) => CurrentSong(parsed.title, parsed.artist, Some(songText))
         case None => CurrentSong(SmartTitleCase(trimmed), "Unknown Artist", Some(songText)))
      case OtherField => FallbackSong
    else FallbackSong
  }

  /** The raw text is reported exactly when the reply carried song text;
      every other outcome is the fixed station fallback. */
  lemma RawDataIffText(reply: SongReply)
    ensures GetCurrentSong(reply).rawData.Some? <==> reply.Body? && reply.success && reply.data.TextField?
    ensures GetCurrentSong(reply).rawData.None? ==> GetCurrentSong(reply) == FallbackSong
  {
  }
}
