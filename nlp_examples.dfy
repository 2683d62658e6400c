/**
 * Worked commands: the interpreter applied to concrete texts.
 */
module NlpExamples {
  import opened Wrappers
  import opened Text
  import opened Patterns
  import opened NlpProcessor

  /** "budget" contains the ADD verb "get", so it is an ADD command. */
  lemma BudgetIsAdd()
    ensures ExtractIntent("budget") == Add
  {
    assert Contains("budget", "get");
    AddVerbInside("budget", 2);
  }

  /** The unit is the whole letter run: "bottles", not the listed unit "bottle". */
  lemma TwoBottles()
    ensures ExtractQuantity("remove 2 bottles of milk") == Amount(2, "bottles")
  {
    var t := "remove 2 bottles of milk";
    assert t[7..8] == "2" && t[9..16] == "bottles";
    forall m | 0 <= m < 7 ensures !IsDigit(t[m]) {
      assert m in {0, 1, 2, 3, 4, 5, 6};
    }
    forall m | 9 <= m < 16 ensures IsLetter(t[m]) {
      assert m in {9, 10, 11, 12, 13, 14, 15};
    }
    QuantityOfFirstNumber(t, 7, 8, 9, 16);
  }

  /** A count of zero is kept as it is. */
  lemma ZeroEggs()
    ensures ExtractQuantity("0 eggs") == Amount(0, "eggs")
  {
    var t := "0 eggs";
    assert t[0..1] == "0" && t[2..6] == "eggs";
    forall m | 2 <= m < 6 ensures IsLetter(t[m]) {
      assert m in {2, 3, 4, 5};
    }
    QuantityOfFirstNumber(t, 0, 1, 2, 6);
  }

  // ---------------------------------------------------------------------------
  // "add milk, bread"

  /**
   * "add milk, bread" is an ADD command for milk then bread, one piece of
   * each by default, and milk, the first item, is dairy.
   */
  lemma AddMilkBread()
    ensures ProcessCommand("add milk, bread") ==
      CommandResult("add milk, bread", Add, ["milk", "bread"], Amount(1, "piece"), Some("dairy"))
  {
    NormalMilkBread();
    IntentMilkBread();
    ItemsMilkBread();
    QuantityMilkBread();
    DairyMilk();
  }

  lemma NormalMilkBread()
    ensures Strip(Lower("add milk, bread")) == "add milk, bread"
  {
    LowerCaseMilkBread();
    LowerOfLowerCase("add milk, bread");
    TrimmedMilkBread();
    StripOfTrimmed("add milk, bread");
  }

  lemma TrimmedMilkBread()
    ensures IsTrimmed("add milk, bread")
  {
    var t := "add milk, bread";
    assert t[0] == 'a' && t[|t| - 1] == 'd';
  }

  lemma LowerCaseMilkBread()
    ensures IsLowerCase("add milk, bread")
  {
    var t := "add milk, bread";
    forall m | 0 <= m < |t| ensures !IsUpper(t[m]) {
      assert m in {0, 1, 2, 3, 4, 5, 6, 7, 8, 9, 10, 11, 12, 13, 14};
    }
  }

  lemma IntentMilkBread()
    ensures ExtractIntent("add milk, bread") == Add
  {
    assert Contains("add milk, bread", "add");
    AddVerbInside("add milk, bread", 0);
  }

  lemma QuantityMilkBread()
    ensures ExtractQuantity("add milk, bread") == DefaultAmount
  {
    NoDigitInMilkBread();
  }

  lemma NoDigitInMilkBread()
    ensures forall m :: 0 <= m < |"add milk, bread"| ==> !IsDigit("add milk, bread"[m])
  {
    var t := "add milk, bread";
    forall m | 0 <= m < |t| ensures !IsDigit(t[m]) {
      assert m in {0, 1, 2, 3, 4, 5, 6, 7, 8, 9, 10, 11, 12, 13, 14};
    }
  }

  lemma DairyMilk()
    ensures Categorize("milk") == "dairy"
  {
    assert Contains(Lower("milk"), "milk");
    MilkIsDairy("milk");
  }

  /** Deleting "add" leaves " milk, bread", where no verb, amount or list phrase starts. */
  lemma CleanMilkBread()
    ensures Clean("add milk, bread") == " milk, bread"
  {
    var t := "add milk, bread";
    var u := " milk, bread";
    assert PrefixCI("add", t);
    assert AltSpan(ItemVerbs, t) == Some(3);
    assert t[3..] == u;
    NoVerbInMilkBread();
    EraseNowhere(ItemVerbs, u);
    NothingElseInMilkBread();
    EraseNowhere(ItemAmounts, u);
    EraseNowhere(ListPhrases, u);
  }

  lemma NoVerbInMilkBread()
    ensures Nowhere(ItemVerbs, " milk, bread")
  {
    var u := " milk, bread";
    forall i | 0 <= i < |u| ensures AltSpan(ItemVerbs, u[i..]).None? {
      if i in {7, 8, 10, 11} {
        assert u[7..] == "bread" && u[8..] == "read" && u[10..] == "ad" && u[11..] == "d";
        NoVerbAtTail();
      } else {
        assert i in {0, 1, 2, 3, 4, 5, 6, 9};
        CannotStartAlt(ItemVerbs, u[i..]);
      }
    }
  }

  lemma NothingElseInMilkBread()
    ensures Nowhere(ItemAmounts, " milk, bread") && Nowhere(ListPhrases, " milk, bread")
  {
    var u := " milk, bread";
    forall i | 0 <= i < |u| ensures AltSpan(ItemAmounts, u[i..]).None? && AltSpan(ListPhrases, u[i..]).None? {
      assert i in {0, 1, 2, 3, 4, 5, 6, 7, 8, 9, 10, 11};
      CannotStartAlt(ItemAmounts, u[i..]);
      CannotStartAlt(ListPhrases, u[i..]);
    }
  }

  lemma NoVerbAtTail()
    ensures AltSpan(ItemVerbs, "bread").None? && AltSpan(ItemVerbs, "read").None?
    ensures AltSpan(ItemVerbs, "ad").None? && AltSpan(ItemVerbs, "d").None?
  {
    NoVerbAtBread();
    NoVerbAtRead();
    NoVerbAtAd();
    NoVerbAtD();
  }

  lemma NoVerbAtBread()
    ensures AltSpan(ItemVerbs, "bread").None?
  {
    var t := "bread";
    var words := ItemVerbs[0].words;
    forall k | 0 <= k < |words| ensures !PrefixCI(words[k], t) {
      if k == 1 { MismatchNotPrefix(words[k], t, 1); } else { MismatchNotPrefix(words[k], t, 0); }
    }
  }

  lemma NoVerbAtRead()
    ensures AltSpan(ItemVerbs, "read").None?
  {
    var t := "read";
    var words := ItemVerbs[0].words;
    forall k | 0 <= k < |words| ensures !PrefixCI(words[k], t) {
      if k == 4 { MismatchNotPrefix(words[k], t, 2); } else { MismatchNotPrefix(words[k], t, 0); }
    }
  }

  lemma NoVerbAtAd()
    ensures AltSpan(ItemVerbs, "ad").None?
  {
    var words := ItemVerbs[0].words;
    forall k | 0 <= k < |words| ensures !PrefixCI(words[k], "ad") {
      if k == 0 { MismatchNotPrefix(words[k], "ad", 2); } else { MismatchNotPrefix(words[k], "ad", 0); }
    }
  }

  lemma NoVerbAtD()
    ensures AltSpan(ItemVerbs, "d").None?
  {
    var words := ItemVerbs[0].words;
    forall k | 0 <= k < |words| ensures !PrefixCI(words[k], "d") {
      if k == 5 { MismatchNotPrefix(words[k], "d", 1); } else { MismatchNotPrefix(words[k], "d", 0); }
    }
  }

  lemma SegmentsMilkBread()
    ensures Segments("add milk, bread") == ["milk", "bread"]
  {
    CleanMilkBread();
    SplitMilkBread();
    StripMilkBread();
    var r := Segments("add milk, bread");
    assert |r| == 2 && r[0] == Strip(" milk") && r[1] == Strip(" bread");
    PairEq(r, "milk", "bread");
  }

  lemma PairEq(r: seq<string>, a: string, b: string)
    requires |r| == 2 && r[0] == a && r[1] == b
    ensures r == [a, b]
  {
  }

  lemma SplitMilkBread()
    ensures Split(" milk, bread", ',') == [" milk", " bread"]
  {
    assert " milk" + [','] + " bread" == " milk, bread";
    NoCommaInPieces();
    SplitPiece(" bread", ',');
    SplitPrefixed(" milk", " bread", ',');
  }

  lemma NoCommaInPieces()
    ensures ',' !in " milk" && ',' !in " bread"
  {
    forall i | 0 <= i < 5 ensures " milk"[i] != ',' {
      assert i in {0, 1, 2, 3, 4};
    }
    forall i | 0 <= i < 6 ensures " bread"[i] != ',' {
      assert i in {0, 1, 2, 3, 4, 5};
    }
  }

  lemma StripMilkBread()
    ensures Strip(" milk") == "milk" && Strip(" bread") == "bread"
  {
    assert SkipSpaces(" milk", 0) == 1;
    assert SkipSpaces(" bread", 0) == 1;
  }

  lemma ItemsMilkBread()
    ensures ExtractItems("add milk, bread") == ["milk", "bread"]
  {
    SegmentsMilkBread();
    KeepMilkBread();
  }

  lemma KeepMilkBread()
    ensures LongEnough(Candidates(["milk", "bread"])) == ["milk", "bread"]
  {
    var pieces := ["milk", "bread"];
    assert "milk" !in Stopwords && "bread" !in Stopwords;
    assert pieces[1..] == ["bread"] && pieces[1..][1..] == [];
    assert Candidates(pieces) == pieces;
  }

  // ---------------------------------------------------------------------------
  // "2 kg"

  /** "2 kg" matches no ADD, REMOVE, LIST or SEARCH pattern, so it is a QUANTITY command. */
  lemma TwoKgIsQuantity()
    ensures ExtractIntent("2 kg") == Quantity
  {
    var t := "2 kg";
    NoVerbInTwoKg();
    NoOtherWordInTwoKg();
    AmountInTwoKg();
    QuantityWhenOnlyAmount(t);
  }

  lemma NoVerbInTwoKg()
    ensures Nowhere(AddVerbs, "2 kg")
  {
    var t := "2 kg";
    forall i | 0 <= i < |t| ensures AltSpan(AddVerbs, t[i..]).None? {
      if i == 3 {
        assert t[3..] == "g";
        var words := AddVerbs[0].words;
        forall k | 0 <= k < |words| ensures !PrefixCI(words[k], "g") {
          if k == 2 { MismatchNotPrefix(words[k], "g", 1); } else { MismatchNotPrefix(words[k], "g", 0); }
        }
      } else {
        assert i in {0, 1, 2};
        CannotStartAlt(AddVerbs, t[i..]);
      }
    }
  }

  lemma NoOtherWordInTwoKg()
    ensures Nowhere(AddPhrase, "2 kg") && Nowhere(RemoveVerbs, "2 kg")
    ensures Nowhere(ListWords, "2 kg") && Nowhere(SearchWords, "2 kg")
  {
    NoPhraseOrRemoveInTwoKg();
    NoListOrSearchInTwoKg();
  }

  lemma NoPhraseOrRemoveInTwoKg()
    ensures Nowhere(AddPhrase, "2 kg") && Nowhere(RemoveVerbs, "2 kg")
  {
    var t := "2 kg";
    forall i | 0 <= i < |t| ensures AltSpan(AddPhrase, t[i..]).None? && AltSpan(RemoveVerbs, t[i..]).None? {
      assert i in {0, 1, 2, 3};
      CannotStartAlt(AddPhrase, t[i..]);
      CannotStartAlt(RemoveVerbs, t[i..]);
    }
  }

  lemma NoListOrSearchInTwoKg()
    ensures Nowhere(ListWords, "2 kg") && Nowhere(SearchWords, "2 kg")
  {
    var t := "2 kg";
    forall i | 0 <= i < |t| ensures AltSpan(ListWords, t[i..]).None? && AltSpan(SearchWords, t[i..]).None? {
      assert i in {0, 1, 2, 3};
      CannotStartAlt(ListWords, t[i..]);
      CannotStartAlt(SearchWords, t[i..]);
    }
  }

  lemma AmountInTwoKg()
    ensures Found(QuantityUnits, "2 kg")
  {
    var t := "2 kg";
    SkipExact(t, IsDigit, 0, 1);
    assert t[1..] == " kg" && t[1 + 1..] == "kg";
    SkipExact(" kg", IsSpace, 0, 1);
    assert " kg"[1..] == "kg";
    assert PrefixCI(QuantityUnits[0].units[2], "kg");
    assert Span(QuantityUnits[0], t).Some?;
    assert t[0..] == t;
    FoundFrom(QuantityUnits, t, 0);
  }
}
