/**
 The code of 1, 2, 3 under a salt, which shuffles the separators and the alphabet first.
 */
module HashidsSaltedCode {
  import opened Hashids
  import opened HashidsLaws
  import opened HashidsDefaults
  import opened HashidsRounds

  // The alphabets and the salts of their shuffles, at the start and the end of each ...
  const SALT := "Arbitrary string"
  const SEPARATORS := "tHCsfFhI" + "STUiuc"
  const Alphabet0 := (("Xlj47EnG" + "aWQeLK3m") + ("P2MDZNg6" + "bwr01ovq")) + ("dROBJV8x" + "kyzY")
  const Mixed := "5p9A" + Alphabet0
  const Salt1 := "n" + SALT + Alphabet0[..27]
  const Alphabet1 := (("WeXrvgbR" + "70d4Zzlw") + ("yo23QkLK" + "xNMB8jOD")) + ("mnVY61GP" + "aJqE")
  const Salt2 := "n" + SALT + Alphabet1[..27]
  const Alphabet2 := (("MLr2mkvz" + "eZ0ojWad") + ("Nl4BJOxq" + "QnPYGXV3")) + ("wb1EK8Ry" + "76Dg")
  const Salt3 := "n" + SALT + Alphabet2[..27]
  const Alphabet3 := (("ynZajw4M" + "2D6bX0Yo") + ("mVQ7LPlJ" + "WOxERr1B")) + ("dv8gqGzN" + "eK3k")

  // ... and between them, while they are shuffled.
  const SeparatorsAfter9 := "CfHtsFhI" + "STUiuc"
  const LettersAfter9 := (("abdegj7l" + "mnopqrvw") + ("659A2DEG" + "3KLMNOPQ")) + ("R4WX0Z1B" + "JV8xkyzY")
  const LettersAfter18 := (("abQegj7l" + "mn4pXPWw") + ("659A2DEG" + "3KLMNZr0")) + ("1ovqdROB" + "JV8xkyzY")
  const LettersAfter27 := (("aKQeLj7l" + "mn4pXPW3") + ("E59AG2MD" + "ZNg6bwr0")) + ("1ovqdROB" + "JV8xkyzY")
  const LettersAfter36 := (("X5G9Ej7l" + "An4paWQe") + ("LK3mP2MD" + "ZNg6bwr0")) + ("1ovqdROB" + "JV8xkyzY")
  const LettersAfter45 := (("95pAXlj4" + "7EnGaWQe") + ("LK3mP2MD" + "ZNg6bwr0")) + ("1ovqdROB" + "JV8xkyzY")
  const Alphabet1After9 := (("Xlj47Bn8" + "kWQeLK3m") + ("x2MDZNgy" + "bwr0Vovz")) + ("dROY61GP" + "aJqE")
  const Alphabet1After18 := (("Xlo470Rv" + "kWQeLK3d") + ("x2rzZNgy" + "bwMB8jOD")) + ("mnVY61GP" + "aJqE")
  const Alphabet1After27 := (("Xlr470Rv" + "wWZegyzd") + ("bo23QkLK" + "xNMB8jOD")) + ("mnVY61GP" + "aJqE")
  const Alphabet1After36 := (("XbregWRv" + "70d4Zzlw") + ("yo23QkLK" + "xNMB8jOD")) + ("mnVY61GP" + "aJqE")
  const Alphabet2After9 := (("WeXrvYbG" + "a0d4Zzlw") + ("Po23QkLJ" + "xNMB1jOq")) + ("mnVEK8Ry" + "76Dg")
  const Alphabet2After18 := (("WejrvBnO" + "a0d4Zzlm") + ("Mo2qQkLJ" + "xNPYGXV3")) + ("wb1EK8Ry" + "76Dg")
  const Alphabet2After27 := (("WejrvLNk" + "a0d2Zzom") + ("Ml4BJOxq" + "QnPYGXV3")) + ("wb1EK8Ry" + "76Dg")
  const Alphabet2After36 := (("z2mrvLMk" + "eZ0ojWad") + ("Nl4BJOxq" + "QnPYGXV3")) + ("wb1EK8Ry" + "76Dg")
  const Alphabet3After9 := (("MLr2mEvR" + "7Z0ojWad") + ("yl4BJOx6" + "QnPY8XVD")) + ("wb1gqGzN" + "eK3k")
  const Alphabet3After18 := (("MLX2mYbV" + "7Z0ojWaw") + ("yl4DJOP6" + "QnxERr1B")) + ("dv8gqGzN" + "eK3k")
  const Alphabet3After27 := (("M6X2mYbn" + "DZ0oj4aw") + ("yVQ7LPlJ" + "WOxERr1B")) + ("dv8gqGzN" + "eK3k")
  const Alphabet3After36 := (("M4jZyawn" + "2D6bX0Yo") + ("mVQ7LPlJ" + "WOxERr1B")) + ("dv8gqGzN" + "eK3k")

  lemma SeparatorsExchanges0()
    ensures Nine(BASE_SEPARATORS, 13, 0, 6, 3, 0, 6, 3, 0, 2, 3) == SeparatorsAfter9
  {
    assert |BASE_SEPARATORS| == |SeparatorsAfter9| == 14;
  }

  lemma SeparatorsRounds0()
    requires SumTo(SALT, 0) == 0
    ensures Rounds(SALT, BASE_SEPARATORS, 0) == Rounds(SALT, SeparatorsAfter9, 9)
    ensures SumTo(SALT, 9) == 944
  {
    hide Rounds, SumTo, Nine, At;
    SeparatorsExchanges0();
    AtLap(SALT, 0, 0); AtLap(SALT, 0, 1); AtLap(SALT, 0, 2); AtLap(SALT, 0, 3); AtLap(SALT, 0, 4);
    AtLap(SALT, 0, 5); AtLap(SALT, 0, 6); AtLap(SALT, 0, 7); AtLap(SALT, 0, 8);
    Climb(SALT, BASE_SEPARATORS, 14, 0, SeparatorsAfter9,
      0, 1, 2, 3, 4, 5, 6, 7, 8,
      0, 65, 179, 277, 382, 498, 612, 709, 823, 944,
      0, 6, 3, 0, 6, 3, 0, 2, 3);
  }

  lemma SeparatorsExchanges9()
    ensures Nine(SeparatorsAfter9, 4, 1, 1, 0, 0, 0, 0, 0, 0, 0) == SEPARATORS
  {
    assert |SeparatorsAfter9| == |SEPARATORS| == 14;
  }

  lemma SeparatorsRounds9()
    requires SumTo(SALT, 9) == 944
    ensures Rounds(SALT, SeparatorsAfter9, 9) == Rounds(SALT, SEPARATORS, 18)
  {
    hide Rounds, SumTo, Nine, At;
    SeparatorsExchanges9();
    AtLap(SALT, 0, 9); AtLap(SALT, 0, 10); AtLap(SALT, 0, 11); AtLap(SALT, 0, 12);
    Climb(SALT, SeparatorsAfter9, 14, 9, SEPARATORS,
      9, 10, 11, 12, 0, 0, 0, 0, 0,
      944, 976, 1091, 1207, 1321, 1321, 1321, 1321, 1321, 1321,
      1, 1, 0, 0, 0, 0, 0, 0, 0);
  }

  lemma SeparatorsShuffled()
    ensures Reorder(SALT, BASE_SEPARATORS) == SEPARATORS
  {
    hide Rounds, SumTo, Reorder;
    NoSum(SALT);
    SeparatorsRounds0();
    SeparatorsRounds9();
    AllRounds(SALT, BASE_SEPARATORS, SEPARATORS, 18);
  }

  lemma LettersExchanges0()
    ensures Nine(KEPT, 47, 36, 18, 17, 6, 16, 17, 33, 24, 20) == LettersAfter9
  {
    assert |KEPT| == |LettersAfter9| == 48;
  }

  lemma LettersRounds0()
    requires SumTo(SALT, 0) == 0
    ensures Rounds(SALT, KEPT, 0) == Rounds(SALT, LettersAfter9, 9)
    ensures SumTo(SALT, 9) == 944
  {
    hide Rounds, SumTo, Nine, At;
    LettersExchanges0();
    AtLap(SALT, 0, 0); AtLap(SALT, 0, 1); AtLap(SALT, 0, 2); AtLap(SALT, 0, 3); AtLap(SALT, 0, 4);
    AtLap(SALT, 0, 5); AtLap(SALT, 0, 6); AtLap(SALT, 0, 7); AtLap(SALT, 0, 8);
    Climb(SALT, KEPT, 48, 0, LettersAfter9,
      0, 1, 2, 3, 4, 5, 6, 7, 8,
      0, 65, 179, 277, 382, 498, 612, 709, 823, 944,
      36, 18, 17, 6, 16, 17, 33, 24, 20);
  }

  lemma LettersExchanges9()
    ensures Nine(LettersAfter9, 38, 29, 32, 2, 12, 14, 10, 29, 2, 13) == LettersAfter18
  {
    assert |LettersAfter9| == |LettersAfter18| == 48;
  }

  lemma LettersRounds9()
    requires SumTo(SALT, 9) == 944
    ensures Rounds(SALT, LettersAfter9, 9) == Rounds(SALT, LettersAfter18, 18)
    ensures SumTo(SALT, 18) == 1818
  {
    hide Rounds, SumTo, Nine, At;
    LettersExchanges9();
    AtLap(SALT, 0, 9); AtLap(SALT, 0, 10); AtLap(SALT, 0, 11); AtLap(SALT, 0, 12); AtLap(SALT, 0, 13);
    AtLap(SALT, 0, 14); AtLap(SALT, 0, 15); AtLap(SALT, 1, 0); AtLap(SALT, 1, 1);
    Climb(SALT, LettersAfter9, 48, 9, LettersAfter18,
      9, 10, 11, 12, 13, 14, 15, 0, 1,
      944, 976, 1091, 1207, 1321, 1426, 1536, 1639, 1704, 1818,
      29, 32, 2, 12, 14, 10, 29, 2, 13);
  }

  lemma LettersExchanges18()
    ensures Nine(LettersAfter18, 29, 15, 1, 16, 4, 1, 15, 21, 16, 20) == LettersAfter27
  {
    assert |LettersAfter18| == |LettersAfter27| == 48;
  }

  lemma LettersRounds18()
    requires SumTo(SALT, 18) == 1818
    ensures Rounds(SALT, LettersAfter18, 18) == Rounds(SALT, LettersAfter27, 27)
    ensures SumTo(SALT, 27) == 2730
  {
    hide Rounds, SumTo, Nine, At;
    LettersExchanges18();
    AtLap(SALT, 1, 2); AtLap(SALT, 1, 3); AtLap(SALT, 1, 4); AtLap(SALT, 1, 5); AtLap(SALT, 1, 6);
    AtLap(SALT, 1, 7); AtLap(SALT, 1, 8); AtLap(SALT, 1, 9); AtLap(SALT, 1, 10);
    Climb(SALT, LettersAfter18, 48, 18, LettersAfter27,
      2, 3, 4, 5, 6, 7, 8, 9, 10,
      1818, 1916, 2021, 2137, 2251, 2348, 2462, 2583, 2615, 2730,
      15, 1, 16, 4, 1, 15, 21, 16, 20);
  }

  lemma LettersExchanges27()
    ensures Nine(LettersAfter27, 20, 13, 8, 15, 1, 4, 3, 2, 2, 0) == LettersAfter36
  {
    assert |LettersAfter27| == |LettersAfter36| == 48;
  }

  lemma LettersRounds27()
    requires SumTo(SALT, 27) == 2730
    ensures Rounds(SALT, LettersAfter27, 27) == Rounds(SALT, LettersAfter36, 36)
    ensures SumTo(SALT, 36) == 3660
  {
    hide Rounds, SumTo, Nine, At;
    LettersExchanges27();
    AtLap(SALT, 1, 11); AtLap(SALT, 1, 12); AtLap(SALT, 1, 13); AtLap(SALT, 1, 14); AtLap(SALT, 1, 15);
    AtLap(SALT, 2, 0); AtLap(SALT, 2, 1); AtLap(SALT, 2, 2); AtLap(SALT, 2, 3);
    Climb(SALT, LettersAfter27, 48, 27, LettersAfter36,
      11, 12, 13, 14, 15, 0, 1, 2, 3,
      2730, 2846, 2960, 3065, 3175, 3278, 3343, 3457, 3555, 3660,
      13, 8, 15, 1, 4, 3, 2, 2, 0);
  }

  lemma LettersExchanges36()
    ensures Nine(LettersAfter36, 11, 2, 9, 4, 6, 4, 5, 4, 0, 0) == LettersAfter45
  {
    assert |LettersAfter36| == |LettersAfter45| == 48;
  }

  lemma LettersRounds36()
    requires SumTo(SALT, 36) == 3660
    ensures Rounds(SALT, LettersAfter36, 36) == Rounds(SALT, LettersAfter45, 45)
    ensures SumTo(SALT, 45) == 4599
  {
    hide Rounds, SumTo, Nine, At;
    LettersExchanges36();
    AtLap(SALT, 2, 4); AtLap(SALT, 2, 5); AtLap(SALT, 2, 6); AtLap(SALT, 2, 7); AtLap(SALT, 2, 8);
    AtLap(SALT, 2, 9); AtLap(SALT, 2, 10); AtLap(SALT, 2, 11); AtLap(SALT, 2, 12);
    Climb(SALT, LettersAfter36, 48, 36, LettersAfter45,
      4, 5, 6, 7, 8, 9, 10, 11, 12,
      3660, 3776, 3890, 3987, 4101, 4222, 4254, 4369, 4485, 4599,
      2, 9, 4, 6, 4, 5, 4, 0, 0);
  }

  lemma LettersExchanges45()
    ensures Nine(LettersAfter45, 2, 0, 0, 0, 0, 0, 0, 0, 0, 0) == Mixed
  {
    assert |LettersAfter45| == |Mixed| == 48;
  }

  lemma LettersRounds45()
    requires SumTo(SALT, 45) == 4599
    ensures Rounds(SALT, LettersAfter45, 45) == Rounds(SALT, Mixed, 54)
  {
    hide Rounds, SumTo, Nine, At;
    LettersExchanges45();
    AtLap(SALT, 2, 13); AtLap(SALT, 2, 14);
    Climb(SALT, LettersAfter45, 48, 45, Mixed,
      13, 14, 0, 0, 0, 0, 0, 0, 0,
      4599, 4704, 4814, 4814, 4814, 4814, 4814, 4814, 4814, 4814,
      0, 0, 0, 0, 0, 0, 0, 0, 0);
  }

  lemma LettersShuffled()
    ensures Reorder(SALT, KEPT) == Mixed
  {
    hide Rounds, SumTo, Reorder;
    NoSum(SALT);
    LettersRounds0();
    LettersRounds9();
    LettersRounds18();
    LettersRounds27();
    LettersRounds36();
    LettersRounds45();
    AllRounds(SALT, KEPT, Mixed, 54);
  }

  lemma Salt1Is()
    ensures |Alphabet0| == 44 && AlphabetSalt('n', SALT, Alphabet0) == Salt1
  {
    SaltFront('n', SALT, Alphabet0);
  }

  lemma Alphabet1Exchanges0()
    ensures Nine(Alphabet0, 43, 5, 31, 36, 8, 16, 7, 28, 23, 5) == Alphabet1After9
  {
    assert |Alphabet0| == |Alphabet1After9| == 44;
  }

  lemma Alphabet1Rounds0()
    requires SumTo(Salt1, 0) == 0
    ensures Rounds(Salt1, Alphabet0, 0) == Rounds(Salt1, Alphabet1After9, 9)
    ensures SumTo(Salt1, 9) == 933
  {
    hide Rounds, SumTo, Nine, At;
    Alphabet1Exchanges0();
    AtLap(Salt1, 0, 0); AtLap(Salt1, 0, 1); AtLap(Salt1, 0, 2); AtLap(Salt1, 0, 3); AtLap(Salt1, 0, 4);
    AtLap(Salt1, 0, 5); AtLap(Salt1, 0, 6); AtLap(Salt1, 0, 7); AtLap(Salt1, 0, 8);
    Climb(Salt1, Alphabet0, 44, 0, Alphabet1After9,
      0, 1, 2, 3, 4, 5, 6, 7, 8,
      0, 110, 175, 289, 387, 492, 608, 722, 819, 933,
      5, 31, 36, 8, 16, 7, 28, 23, 5);
  }

  lemma Alphabet1Exchanges9()
    ensures Nine(Alphabet1After9, 34, 28, 6, 15, 19, 28, 2, 7, 5, 18) == Alphabet1After18
  {
    assert |Alphabet1After9| == |Alphabet1After18| == 44;
  }

  lemma Alphabet1Rounds9()
    requires SumTo(Salt1, 9) == 933
    ensures Rounds(Salt1, Alphabet1After9, 9) == Rounds(Salt1, Alphabet1After18, 18)
    ensures SumTo(Salt1, 18) == 1837
  {
    hide Rounds, SumTo, Nine, At;
    Alphabet1Exchanges9();
    AtLap(Salt1, 0, 9); AtLap(Salt1, 0, 10); AtLap(Salt1, 0, 11); AtLap(Salt1, 0, 12); AtLap(Salt1, 0, 13);
    AtLap(Salt1, 0, 14); AtLap(Salt1, 0, 15); AtLap(Salt1, 0, 16); AtLap(Salt1, 0, 17);
    Climb(Salt1, Alphabet1After9, 44, 9, Alphabet1After18,
      9, 10, 11, 12, 13, 14, 15, 16, 17,
      933, 1054, 1086, 1201, 1317, 1431, 1536, 1646, 1749, 1837,
      28, 6, 15, 19, 28, 2, 7, 5, 18);
  }

  lemma Alphabet1Exchanges18()
    ensures Nine(Alphabet1After18, 25, 21, 16, 13, 12, 8, 10, 14, 17, 2) == Alphabet1After27
  {
    assert |Alphabet1After18| == |Alphabet1After27| == 44;
  }

  lemma Alphabet1Rounds18()
    requires SumTo(Salt1, 18) == 1837
    ensures Rounds(Salt1, Alphabet1After18, 18) == Rounds(Salt1, Alphabet1After27, 27)
    ensures SumTo(Salt1, 27) == 2592
  {
    hide Rounds, SumTo, Nine, At;
    Alphabet1Exchanges18();
    AtLap(Salt1, 0, 18); AtLap(Salt1, 0, 19); AtLap(Salt1, 0, 20); AtLap(Salt1, 0, 21); AtLap(Salt1, 0, 22);
    AtLap(Salt1, 0, 23); AtLap(Salt1, 0, 24); AtLap(Salt1, 0, 25); AtLap(Salt1, 0, 26);
    Climb(Salt1, Alphabet1After18, 44, 18, Alphabet1After27,
      18, 19, 20, 21, 22, 23, 24, 25, 26,
      1837, 1945, 2051, 2103, 2158, 2227, 2337, 2408, 2505, 2592,
      21, 16, 13, 12, 8, 10, 14, 17, 2);
  }

  lemma Alphabet1Exchanges27()
    ensures Nine(Alphabet1After27, 16, 13, 8, 1, 1, 10, 3, 8, 5, 4) == Alphabet1After36
  {
    assert |Alphabet1After27| == |Alphabet1After36| == 44;
  }

  lemma Alphabet1Rounds27()
    requires SumTo(Salt1, 27) == 2592
    ensures Rounds(Salt1, Alphabet1After27, 27) == Rounds(Salt1, Alphabet1After36, 36)
    ensures SumTo(Salt1, 36) == 3292
  {
    hide Rounds, SumTo, Nine, At;
    Alphabet1Exchanges27();
    AtLap(Salt1, 0, 27); AtLap(Salt1, 0, 28); AtLap(Salt1, 0, 29); AtLap(Salt1, 0, 30); AtLap(Salt1, 0, 31);
    AtLap(Salt1, 0, 32); AtLap(Salt1, 0, 33); AtLap(Salt1, 0, 34); AtLap(Salt1, 0, 35);
    Climb(Salt1, Alphabet1After27, 44, 27, Alphabet1After36,
      27, 28, 29, 30, 31, 32, 33, 34, 35,
      2592, 2673, 2774, 2850, 2925, 2976, 3085, 3165, 3215, 3292,
      13, 8, 1, 1, 10, 3, 8, 5, 4);
  }

  lemma Alphabet1Exchanges36()
    ensures Nine(Alphabet1After36, 7, 6, 1, 4, 1, 2, 0, 0, 0, 0) == Alphabet1
  {
    assert |Alphabet1After36| == |Alphabet1| == 44;
  }

  lemma Alphabet1Rounds36()
    requires SumTo(Salt1, 36) == 3292
    ensures Rounds(Salt1, Alphabet1After36, 36) == Rounds(Salt1, Alphabet1, 45)
  {
    hide Rounds, SumTo, Nine, At;
    Alphabet1Exchanges36();
    AtLap(Salt1, 0, 36); AtLap(Salt1, 0, 37); AtLap(Salt1, 0, 38); AtLap(Salt1, 0, 39); AtLap(Salt1, 0, 40);
    AtLap(Salt1, 0, 41); AtLap(Salt1, 0, 42);
    Climb(Salt1, Alphabet1After36, 44, 36, Alphabet1,
      36, 37, 38, 39, 40, 41, 42, 0, 0,
      3292, 3360, 3450, 3528, 3631, 3685, 3783, 3902, 3902, 3902,
      6, 1, 4, 1, 2, 0, 0, 0, 0);
  }

  lemma Alphabet1Shuffled()
    ensures Reorder(Salt1, Alphabet0) == Alphabet1
  {
    hide Rounds, SumTo, Reorder;
    NoSum(Salt1);
    Alphabet1Rounds0();
    Alphabet1Rounds9();
    Alphabet1Rounds18();
    Alphabet1Rounds27();
    Alphabet1Rounds36();
    AllRounds(Salt1, Alphabet0, Alphabet1, 45);
  }

  lemma Salt2Is()
    ensures |Alphabet1| == 44 && AlphabetSalt('n', SALT, Alphabet1) == Salt2
  {
    SaltFront('n', SALT, Alphabet1);
  }

  lemma Alphabet2Exchanges0()
    ensures Nine(Alphabet1, 43, 5, 31, 36, 8, 16, 7, 28, 23, 5) == Alphabet2After9
  {
    assert |Alphabet1| == |Alphabet2After9| == 44;
  }

  lemma Alphabet2Rounds0()
    requires SumTo(Salt2, 0) == 0
    ensures Rounds(Salt2, Alphabet1, 0) == Rounds(Salt2, Alphabet2After9, 9)
    ensures SumTo(Salt2, 9) == 933
  {
    hide Rounds, SumTo, Nine, At;
    Alphabet2Exchanges0();
    AtLap(Salt2, 0, 0); AtLap(Salt2, 0, 1); AtLap(Salt2, 0, 2); AtLap(Salt2, 0, 3); AtLap(Salt2, 0, 4);
    AtLap(Salt2, 0, 5); AtLap(Salt2, 0, 6); AtLap(Salt2, 0, 7); AtLap(Salt2, 0, 8);
    Climb(Salt2, Alphabet1, 44, 0, Alphabet2After9,
      0, 1, 2, 3, 4, 5, 6, 7, 8,
      0, 110, 175, 289, 387, 492, 608, 722, 819, 933,
      5, 31, 36, 8, 16, 7, 28, 23, 5);
  }

  lemma Alphabet2Exchanges9()
    ensures Nine(Alphabet2After9, 34, 28, 6, 15, 19, 28, 2, 7, 5, 16) == Alphabet2After18
  {
    assert |Alphabet2After9| == |Alphabet2After18| == 44;
  }

  lemma Alphabet2Rounds9()
    requires SumTo(Salt2, 9) == 933
    ensures Rounds(Salt2, Alphabet2After9, 9) == Rounds(Salt2, Alphabet2After18, 18)
    ensures SumTo(Salt2, 18) == 1836
  {
    hide Rounds, SumTo, Nine, At;
    Alphabet2Exchanges9();
    AtLap(Salt2, 0, 9); AtLap(Salt2, 0, 10); AtLap(Salt2, 0, 11); AtLap(Salt2, 0, 12); AtLap(Salt2, 0, 13);
    AtLap(Salt2, 0, 14); AtLap(Salt2, 0, 15); AtLap(Salt2, 0, 16); AtLap(Salt2, 0, 17);
    Climb(Salt2, Alphabet2After9, 44, 9, Alphabet2After18,
      9, 10, 11, 12, 13, 14, 15, 16, 17,
      933, 1054, 1086, 1201, 1317, 1431, 1536, 1646, 1749, 1836,
      28, 6, 15, 19, 28, 2, 7, 5, 16);
  }

  lemma Alphabet2Exchanges18()
    ensures Nine(Alphabet2After18, 25, 6, 20, 19, 20, 7, 19, 5, 11, 14) == Alphabet2After27
  {
    assert |Alphabet2After18| == |Alphabet2After27| == 44;
  }

  lemma Alphabet2Rounds18()
    requires SumTo(Salt2, 18) == 1836
    ensures Rounds(Salt2, Alphabet2After18, 18) == Rounds(Salt2, Alphabet2After27, 27)
    ensures SumTo(Salt2, 27) == 2643
  {
    hide Rounds, SumTo, Nine, At;
    Alphabet2Exchanges18();
    AtLap(Salt2, 0, 18); AtLap(Salt2, 0, 19); AtLap(Salt2, 0, 20); AtLap(Salt2, 0, 21); AtLap(Salt2, 0, 22);
    AtLap(Salt2, 0, 23); AtLap(Salt2, 0, 24); AtLap(Salt2, 0, 25); AtLap(Salt2, 0, 26);
    Climb(Salt2, Alphabet2After18, 44, 18, Alphabet2After27,
      18, 19, 20, 21, 22, 23, 24, 25, 26,
      1836, 1937, 2025, 2139, 2257, 2360, 2458, 2540, 2595, 2643,
      6, 20, 19, 20, 7, 19, 5, 11, 14);
  }

  lemma Alphabet2Exchanges27()
    ensures Nine(Alphabet2After27, 16, 6, 10, 8, 0, 2, 8, 9, 2, 1) == Alphabet2After36
  {
    assert |Alphabet2After27| == |Alphabet2After36| == 44;
  }

  lemma Alphabet2Rounds27()
    requires SumTo(Salt2, 27) == 2643
    ensures Rounds(Salt2, Alphabet2After27, 27) == Rounds(Salt2, Alphabet2After36, 36)
    ensures SumTo(Salt2, 36) == 3516
  {
    hide Rounds, SumTo, Nine, At;
    Alphabet2Exchanges27();
    AtLap(Salt2, 0, 27); AtLap(Salt2, 0, 28); AtLap(Salt2, 0, 29); AtLap(Salt2, 0, 30); AtLap(Salt2, 0, 31);
    AtLap(Salt2, 0, 32); AtLap(Salt2, 0, 33); AtLap(Salt2, 0, 34); AtLap(Salt2, 0, 35);
    Climb(Salt2, Alphabet2After27, 44, 27, Alphabet2After36,
      27, 28, 29, 30, 31, 32, 33, 34, 35,
      2643, 2743, 2795, 2885, 3007, 3115, 3234, 3355, 3466, 3516,
      6, 10, 8, 0, 2, 8, 9, 2, 1);
  }

  lemma Alphabet2Exchanges36()
    ensures Nine(Alphabet2After36, 7, 0, 4, 0, 2, 1, 1, 0, 0, 0) == Alphabet2
  {
    assert |Alphabet2After36| == |Alphabet2| == 44;
  }

  lemma Alphabet2Rounds36()
    requires SumTo(Salt2, 36) == 3516
    ensures Rounds(Salt2, Alphabet2After36, 36) == Rounds(Salt2, Alphabet2, 45)
  {
    hide Rounds, SumTo, Nine, At;
    Alphabet2Exchanges36();
    AtLap(Salt2, 0, 36); AtLap(Salt2, 0, 37); AtLap(Salt2, 0, 38); AtLap(Salt2, 0, 39); AtLap(Salt2, 0, 40);
    AtLap(Salt2, 0, 41); AtLap(Salt2, 0, 42);
    Climb(Salt2, Alphabet2After36, 44, 36, Alphabet2,
      36, 37, 38, 39, 40, 41, 42, 0, 0,
      3516, 3567, 3648, 3755, 3831, 3906, 4026, 4104, 4104, 4104,
      0, 4, 0, 2, 1, 1, 0, 0, 0);
  }

  lemma Alphabet2Shuffled()
    ensures Reorder(Salt2, Alphabet1) == Alphabet2
  {
    hide Rounds, SumTo, Reorder;
    NoSum(Salt2);
    Alphabet2Rounds0();
    Alphabet2Rounds9();
    Alphabet2Rounds18();
    Alphabet2Rounds27();
    Alphabet2Rounds36();
    AllRounds(Salt2, Alphabet1, Alphabet2, 45);
  }

  lemma Salt3Is()
    ensures |Alphabet2| == 44 && AlphabetSalt('n', SALT, Alphabet2) == Salt3
  {
    SaltFront('n', SALT, Alphabet2);
  }

  lemma Alphabet3Exchanges0()
    ensures Nine(Alphabet2, 43, 5, 31, 36, 8, 16, 7, 28, 23, 5) == Alphabet3After9
  {
    assert |Alphabet2| == |Alphabet3After9| == 44;
  }

  lemma Alphabet3Rounds0()
    requires SumTo(Salt3, 0) == 0
    ensures Rounds(Salt3, Alphabet2, 0) == Rounds(Salt3, Alphabet3After9, 9)
    ensures SumTo(Salt3, 9) == 933
  {
    hide Rounds, SumTo, Nine, At;
    Alphabet3Exchanges0();
    AtLap(Salt3, 0, 0); AtLap(Salt3, 0, 1); AtLap(Salt3, 0, 2); AtLap(Salt3, 0, 3); AtLap(Salt3, 0, 4);
    AtLap(Salt3, 0, 5); AtLap(Salt3, 0, 6); AtLap(Salt3, 0, 7); AtLap(Salt3, 0, 8);
    Climb(Salt3, Alphabet2, 44, 0, Alphabet3After9,
      0, 1, 2, 3, 4, 5, 6, 7, 8,
      0, 110, 175, 289, 387, 492, 608, 722, 819, 933,
      5, 31, 36, 8, 16, 7, 28, 23, 5);
  }

  lemma Alphabet3Exchanges9()
    ensures Nine(Alphabet3After9, 34, 28, 6, 15, 19, 28, 2, 7, 5, 22) == Alphabet3After18
  {
    assert |Alphabet3After9| == |Alphabet3After18| == 44;
  }

  lemma Alphabet3Rounds9()
    requires SumTo(Salt3, 9) == 933
    ensures Rounds(Salt3, Alphabet3After9, 9) == Rounds(Salt3, Alphabet3After18, 18)
    ensures SumTo(Salt3, 18) == 1826
  {
    hide Rounds, SumTo, Nine, At;
    Alphabet3Exchanges9();
    AtLap(Salt3, 0, 9); AtLap(Salt3, 0, 10); AtLap(Salt3, 0, 11); AtLap(Salt3, 0, 12); AtLap(Salt3, 0, 13);
    AtLap(Salt3, 0, 14); AtLap(Salt3, 0, 15); AtLap(Salt3, 0, 16); AtLap(Salt3, 0, 17);
    Climb(Salt3, Alphabet3After9, 44, 9, Alphabet3After18,
      9, 10, 11, 12, 13, 14, 15, 16, 17,
      933, 1054, 1086, 1201, 1317, 1431, 1536, 1646, 1749, 1826,
      28, 6, 15, 19, 28, 2, 7, 5, 22);
  }

  lemma Alphabet3Exchanges18()
    ensures Nine(Alphabet3After18, 25, 21, 13, 20, 17, 17, 1, 8, 13, 7) == Alphabet3After27
  {
    assert |Alphabet3After18| == |Alphabet3After27| == 44;
  }

  lemma Alphabet3Rounds18()
    requires SumTo(Salt3, 18) == 1826
    ensures Rounds(Salt3, Alphabet3After18, 18) == Rounds(Salt3, Alphabet3After27, 27)
    ensures SumTo(Salt3, 27) == 2713
  {
    hide Rounds, SumTo, Nine, At;
    Alphabet3Exchanges18();
    AtLap(Salt3, 0, 18); AtLap(Salt3, 0, 19); AtLap(Salt3, 0, 20); AtLap(Salt3, 0, 21); AtLap(Salt3, 0, 22);
    AtLap(Salt3, 0, 23); AtLap(Salt3, 0, 24); AtLap(Salt3, 0, 25); AtLap(Salt3, 0, 26);
    Climb(Salt3, Alphabet3After18, 44, 18, Alphabet3After27,
      18, 19, 20, 21, 22, 23, 24, 25, 26,
      1826, 1902, 2016, 2066, 2175, 2282, 2400, 2522, 2623, 2713,
      21, 13, 20, 17, 17, 1, 8, 13, 7);
  }

  lemma Alphabet3Exchanges27()
    ensures Nine(Alphabet3After27, 16, 4, 11, 5, 10, 2, 6, 1, 8, 3) == Alphabet3After36
  {
    assert |Alphabet3After27| == |Alphabet3After36| == 44;
  }

  lemma Alphabet3Rounds27()
    requires SumTo(Salt3, 27) == 2713
    ensures Rounds(Salt3, Alphabet3After27, 27) == Rounds(Salt3, Alphabet3After36, 36)
    ensures SumTo(Salt3, 36) == 3500
  {
    hide Rounds, SumTo, Nine, At;
    Alphabet3Exchanges27();
    AtLap(Salt3, 0, 27); AtLap(Salt3, 0, 28); AtLap(Salt3, 0, 29); AtLap(Salt3, 0, 30); AtLap(Salt3, 0, 31);
    AtLap(Salt3, 0, 32); AtLap(Salt3, 0, 33); AtLap(Salt3, 0, 34); AtLap(Salt3, 0, 35);
    Climb(Salt3, Alphabet3After27, 44, 27, Alphabet3After36,
      27, 28, 29, 30, 31, 32, 33, 34, 35,
      2713, 2761, 2872, 2978, 3065, 3162, 3262, 3340, 3448, 3500,
      4, 11, 5, 10, 2, 6, 1, 8, 3);
  }

  lemma Alphabet3Exchanges36()
    ensures Nine(Alphabet3After36, 7, 0, 1, 1, 2, 1, 1, 0, 0, 0) == Alphabet3
  {
    assert |Alphabet3After36| == |Alphabet3| == 44;
  }

  lemma Alphabet3Rounds36()
    requires SumTo(Salt3, 36) == 3500
    ensures Rounds(Salt3, Alphabet3After36, 36) == Rounds(Salt3, Alphabet3, 45)
  {
    hide Rounds, SumTo, Nine, At;
    Alphabet3Exchanges36();
    AtLap(Salt3, 0, 36); AtLap(Salt3, 0, 37); AtLap(Salt3, 0, 38); AtLap(Salt3, 0, 39); AtLap(Salt3, 0, 40);
    AtLap(Salt3, 0, 41); AtLap(Salt3, 0, 42);
    Climb(Salt3, Alphabet3After36, 44, 36, Alphabet3,
      36, 37, 38, 39, 40, 41, 42, 0, 0,
      3500, 3566, 3640, 3719, 3839, 3952, 4033, 4143, 4143, 4143,
      0, 1, 1, 2, 1, 1, 0, 0, 0);
  }

  lemma Alphabet3Shuffled()
    ensures Reorder(Salt3, Alphabet2) == Alphabet3
  {
    hide Rounds, SumTo, Reorder;
    NoSum(Salt3);
    Alphabet3Rounds0();
    Alphabet3Rounds9();
    Alphabet3Rounds18();
    Alphabet3Rounds27();
    Alphabet3Rounds36();
    AllRounds(Salt3, Alphabet2, Alphabet3, 45);
  }

  lemma Front()
    ensures |Mixed| == 48 && Mixed[..4] == "5p9A" && Mixed[4..] == Alphabet0
  {
  }

  lemma Configured()
    ensures Build(0, SALT, "") == Ok(Config(0, SALT, Alphabet0, SEPARATORS, "5p9A"))
    ensures Encodable(Config(0, SALT, Alphabet0, SEPARATORS, "5p9A")) && |SEPARATORS| == 14
  {
    hide Build, Encodable, Reorder;
    SeparatorsShuffled();
    LettersShuffled();
    Front();
    DefaultBuild(SALT, SEPARATORS, Mixed);
  }

  lemma Picks()
    ensures |Alphabet0| == |Alphabet1| == |Alphabet2| == |Alphabet3| == 44 && |SEPARATORS| == 14
    ensures Alphabet0[6] == 'n' && Alphabet1[1] == 'e' && Alphabet2[2] == 'r' && Alphabet3[3] == 'a'
    ensures SEPARATORS[1] == 'H' && SEPARATORS[2] == 'C'
  {
  }

  lemma Shuffles(cfg: Config)
    requires cfg.alphabet == Alphabet0 && cfg.salt == SALT
    requires |Alphabet0| == |Alphabet1| == |Alphabet2| == 44
    ensures Shuffle(cfg, 'n', Alphabet0) == Alphabet1
    ensures Shuffle(cfg, 'n', Alphabet1) == Alphabet2
    ensures Shuffle(cfg, 'n', Alphabet2) == Alphabet3
  {
    hide Reorder, AlphabetSalt, Shuffle;
    Salt1Is();
    Alphabet1Shuffled();
    ShuffleIs(cfg, 'n', Alphabet0, Salt1, Alphabet1);
    Salt2Is();
    Alphabet2Shuffled();
    ShuffleIs(cfg, 'n', Alphabet1, Salt2, Alphabet2);
    Salt3Is();
    Alphabet3Shuffled();
    ShuffleIs(cfg, 'n', Alphabet2, Salt3, Alphabet3);
  }

  lemma ThreeEncoded(cfg: Config)
    requires Encodable(cfg) && cfg == Config(0, SALT, Alphabet0, SEPARATORS, "5p9A")
    ensures Encode(cfg, [1, 2, 3]) == "neHrCa"
  {
    hide Encode, Shuffle, Encodable, Code;
    Picks();
    Shuffles(cfg);
    Codes();
    EncodeThreeAs(cfg, 'n', Alphabet1, Alphabet2, Alphabet3, 'e', 'H', 'r', 'C', 'a');
  }

  lemma Codes()
    ensures Code('e') == 101 && Code('r') == 114
  {
  }

  // The code of 1, 2, 3.
  lemma CodeOfThree()
    ensures Build(0, SALT, "").Ok?
    ensures
      var cfg := Build(0, SALT, "").value;
      Encodable(cfg) && Encode(cfg, [1, 2, 3]) == "neHrCa"
  {
    hide Build, Encode, Encodable;
    Configured();
    ThreeEncoded(Build(0, SALT, "").value);
  }
}
