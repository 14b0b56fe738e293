/** How words and operators are told apart: the tables of the lexer against the spellings of the token
    kinds, in both directions. */
module Spellings {
  import opened Ast
  import opened Tokens
  import opened LexicalRules

  // ---- Keywords ----

  lemma Words1(kind: Kind)
    requires SEP <= kind <= ENDIF
    ensures WordKind(KEYWORDS[kind as int]) == kind
  {
  }

  lemma Words2(kind: Kind)
    requires WHILE <= kind <= ENDFOR
    ensures WordKind(KEYWORDS[kind as int]) == kind
  {
  }

  lemma Words3(kind: Kind)
    requires PRINT <= kind <= NOT
    ensures WordKind(KEYWORDS[kind as int]) == kind
  {
  }

  lemma Words4(kind: Kind)
    requires IS <= kind <= IMPORT
    ensures WordKind(KEYWORDS[kind as int]) == kind
  {
  }

  lemma Words5(kind: Kind)
    requires AS <= kind <= THROW
    ensures WordKind(KEYWORDS[kind as int]) == kind
  {
  }

  lemma Words6(kind: Kind)
    requires ERROR <= kind <= END_TRANSACTION
    ensures WordKind(KEYWORDS[kind as int]) == kind
  {
  }

  lemma Words7(kind: Kind)
    requires TRUE <= kind <= BACK
    ensures WordKind(KEYWORDS[kind as int]) == kind
  {
  }

  lemma WordsOfKinds(kind: Kind)
    requires IsKeyword(kind)
    ensures WordKind(KEYWORDS[kind as int]) == kind
  {
    hide WordKind;
    if kind <= ENDIF {
      Words1(kind);
    } else if kind <= ENDFOR {
      Words2(kind);
    } else if kind <= NOT {
      Words3(kind);
    } else if kind <= IMPORT {
      Words4(kind);
    } else if kind <= THROW {
      Words5(kind);
    } else if kind <= END_TRANSACTION {
      Words6(kind);
    } else {
      Words7(kind);
    }
  }

  lemma Kinds1(word: string)
    requires SEP <= WordKind(word) <= IN
    ensures KEYWORDS[WordKind(word) as int] == word
  {
  }

  lemma Kinds2(word: string)
    requires ENDFOR <= WordKind(word) <= LIST
    ensures KEYWORDS[WordKind(word) as int] == word
  {
  }

  lemma Kinds3(word: string)
    requires END_LIST <= WordKind(word) <= END_ERROR
    ensures KEYWORDS[WordKind(word) as int] == word
  {
  }

  lemma Kinds4(word: string)
    requires HTTP_ROUTE <= WordKind(word) <= BACK
    ensures KEYWORDS[WordKind(word) as int] == word
  {
  }

  lemma KindsOfWords(word: string)
    requires WordKind(word) != IDENTIFIER
    ensures IsKeyword(WordKind(word)) && KEYWORDS[WordKind(word) as int] == word
  {
    var kind := WordKind(word);
    hide WordKind;
    if kind <= IN {
      Kinds1(word);
    } else if kind <= LIST {
      Kinds2(word);
    } else if kind <= END_ERROR {
      Kinds3(word);
    } else {
      Kinds4(word);
    }
  }

  predicate IsSmall(s: string) { forall c | c in s :: !('A' <= c <= 'Z') }

  lemma SmallStaysSmall(s: string)
    ensures IsSmall(Lower(s)) && (IsSmall(s) ==> Lower(s) == s)
  {
    forall i | 0 <= i < |s|
      ensures !('A' <= Lower(s)[i] <= 'Z')
    {
      assert Lower(s)[i] == LowerChar(s[i]);
    }
    if IsSmall(s) {
      forall i | 0 <= i < |s|
        ensures Lower(s)[i] == s[i]
      {
        assert s[i] in s;
      }
    }
  }

  lemma SmallKeywords(kind: Kind)
    requires IsKeyword(kind)
    ensures IsCapital(kind) <==> !IsSmall(KEYWORDS[kind as int])
  {
    if IsCapital(kind) {
      assert KEYWORDS[kind as int][0] in KEYWORDS[kind as int];
    }
  }

  /** In small letters, the keywords in capitals are words like any other. */
  lemma SmallCapitals(kind: Kind)
    requires IsCapital(kind)
    ensures WordKind(Lower(KEYWORDS[kind as int])) == IDENTIFIER
  {
    assert Lower("SEP") == "sep" && Lower("END_SEP") == "end_sep" && Lower("EMPTY") == "empty";
    assert Lower("EMPTYS") == "emptys";
  }

  /** A word is the keyword that it spells, and an identifier if and only if it spells none. */
  lemma KeywordKindIff(word: string, kind: Kind)
    ensures IsKeyword(kind) ==> (KeywordKind(word) == kind <==> SpellsKeyword(word, kind))
    ensures KeywordKind(word) == IDENTIFIER <==> SpellsNoKeyword(word)
  {
    hide WordKind, Lower;
    SmallStaysSmall(word);
    forall k | IsKeyword(k)
      ensures KeywordKind(word) == k <==> SpellsKeyword(word, k)
    {
      WordsOfKinds(k);
      SmallKeywords(k);
      if WordKind(word) != IDENTIFIER {
        KindsOfWords(word);
        var exact := WordKind(word);
        SmallKeywords(exact);
        if IsCapital(exact) { SmallCapitals(exact); }
      } else if WordKind(Lower(word)) != IDENTIFIER {
        KindsOfWords(Lower(word));
        SmallKeywords(WordKind(Lower(word)));
      }
    }
    if KeywordKind(word) != IDENTIFIER {
      assert SpellsKeyword(word, KeywordKind(word));
    }
  }

  // ---- Operators ----

  lemma OperatorsAreShort(kind: Kind)
    ensures IsOperator(kind) <==> Spelling(kind).Some?
    ensures IsOperator(kind) ==> 1 <= |Spelling(kind).value| <= 3
  {
  }

  lemma TripleIff(s: string, kind: Kind)
    requires |s| == 3
    ensures TripleKind(s) == Some(kind) <==> Spelling(kind) == Some(s)
  {
  }

  lemma PairIff(s: string, kind: Kind)
    requires |s| == 2
    ensures PairKind(s) == Some(kind) <==> Spelling(kind) == Some(s)
  {
  }

  lemma SingleIff(c: char, kind: Kind)
    ensures SingleKind(c) == Some(kind) <==> Spelling(kind) == Some([c])
  {
  }

  /** The spelling of this kind stands in the text from `i` to `end`. */
  predicate IsSpelledAt(text: string, i: nat, kind: Kind, end: nat) {
    i < end <= |text| && Spelling(kind) == Some(text[i..end])
  }

  /** Of the operators that stand at a position, the longest is read. */
  lemma OperatorAtIff(text: string, i: nat, kind: Kind, end: nat)
    requires i < |text|
    ensures OperatorAt(text, i) == Some((kind, end))
       <==> && IsSpelledAt(text, i, kind, end)
            && forall k, e: nat :: IsSpelledAt(text, i, k, e) ==> e <= end
  {
    hide TripleKind, PairKind, SingleKind, Spelling;
    assert text[i..i + 1] == [text[i]];
    forall k, e: nat | IsSpelledAt(text, i, k, e)
      ensures OperatorAt(text, i).Some? && e <= OperatorAt(text, i).value.1
    {
      OperatorsAreShort(k);
      if e == i + 3 { TripleIff(text[i..e], k); } else if e == i + 2 { PairIff(text[i..e], k); }
      else { SingleIff(text[i], k); }
    }
    if OperatorAt(text, i).Some? {
      var (k, e) := OperatorAt(text, i).value;
      if e == i + 3 { TripleIff(text[i..e], k); } else if e == i + 2 { PairIff(text[i..e], k); }
      else { SingleIff(text[i], k); }
      assert IsSpelledAt(text, i, k, e);
      if IsSpelledAt(text, i, kind, e) { OneSpelling(k, kind); }
    }
  }

  lemma OneSpelling(k: Kind, kind: Kind)
    requires Spelling(k).Some? && Spelling(k) == Spelling(kind)
    ensures k == kind
  {
    var s := Spelling(k).value;
    OperatorsAreShort(k);
    if |s| == 3 { TripleIff(s, k); TripleIff(s, kind); } else if |s| == 2 { PairIff(s, k); PairIff(s, kind); }
    else { SingleIff(s[0], k); SingleIff(s[0], kind); assert s == [s[0]]; }
  }
}
