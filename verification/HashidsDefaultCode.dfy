/**
 The code of 1, 2, 3 under the default options, followed through every shuffle.
 */
module HashidsDefaultCode {
  import opened Hashids
  import opened HashidsLaws
  import opened HashidsDefaults
  import opened HashidsRounds

  // The alphabets and the salts of their shuffles, at the start and the end of each ...
  const Alphabet0 := "g" + ("jklmnopqrvwxyz" + ("ABDEG" + ("JKLMNOPQRVWXYZ" + "1234567890")))
  const Salt1 := "o" + Alphabet0[..43]
  const Alphabet1 := (("R2YQVZjy" + "OvA678XJ") + ("nmK90Pkl" + "gWBor4z1")) + ("5qLxwG3M" + "DENp")
  const Salt2 := "o" + Alphabet1[..43]
  const Alphabet2 := (("LrXDlKvP" + "B865kJpo") + ("xZq4M7Qw" + "m2VAjEW3")) + ("YG1Rn90z" + "NOgy")
  const Salt3 := "o" + Alphabet2[..43]
  const Alphabet3 := (("Z1zV6OoW" + "725ENmJr") + ("B30Mj9n8" + "vpgKGXlR")) + ("wDAx4qYQ" + "LykP")

  // ... and between them, while they are shuffled.
  const Alphabet1After9 := (("gjklmno0" + "qrv52yzA") + ("B784JKL6" + "9OPQRVWX")) + ("YZ1xwG3M" + "DENp")
  const Alphabet1After18 := (("gjklmnQ0" + "ZRvY2yWA") + ("P78VJKX6" + "9OBor4z1")) + ("5qLxwG3M" + "DENp")
  const Alphabet1After27 := (("VjX67nQJ" + "ZRvY2yOA") + ("8mK90Pkl" + "gWBor4z1")) + ("5qLxwG3M" + "DENp")
  const Alphabet1After36 := (("VjZY2yQR" + "OvA678XJ") + ("nmK90Pkl" + "gWBor4z1")) + ("5qLxwG3M" + "DENp")
  const Alphabet2After9 := (("x2YQVZjp" + "EvA678XJ") + ("wmKG3Pkl" + "DWBor4M1")) + ("5qLRn90z" + "NOgy")
  const Alphabet2After18 := (("x25QBZrp" + "4vo678XJ") + ("wmKqLPkl" + "DMVAjEW3")) + ("YG1Rn90z" + "NOgy")
  const Alphabet2After27 := (("xL5kBDrp" + "Kvo6P8XJ") + ("lZq4M7Qw" + "m2VAjEW3")) + ("YG1Rn90z" + "NOgy")
  const Alphabet2After36 := (("lLvPKDrX" + "B865kJpo") + ("xZq4M7Qw" + "m2VAjEW3")) + ("YG1Rn90z" + "NOgy")
  const Alphabet3After9 := (("NrXDlKvO" + "B865gJpo") + ("RZ9nM7zw" + "m2VAjEW3")) + ("0G1x4qYQ" + "LykP")
  const Alphabet3After18 := (("NrEjW1vO" + "B865VJpo") + ("3Z9nM7z0" + "m2gKGXlR")) + ("wDAx4qYQ" + "LykP")
  const Alphabet3After27 := (("NrEzW1mO" + "B765VJ2o") + ("Z30Mj9n8" + "vpgKGXlR")) + ("wDAx4qYQ" + "LykP")
  const Alphabet3After36 := (("Vo6zW1ZO" + "725ENmJr") + ("B30Mj9n8" + "vpgKGXlR")) + ("wDAx4qYQ" + "LykP")

  lemma Salt1Is()
    ensures |Alphabet0| == 44 && AlphabetSalt('o', "", Alphabet0) == Salt1
  {
    SaltFront('o', "", Alphabet0);
    assert Salt1 == ['o'] + "" + Alphabet0[..43];
  }

  lemma Alphabet1Exchanges0()
    ensures Nine(Alphabet0, 43, 7, 24, 18, 17, 23, 36, 19, 11, 12) == Alphabet1After9
  {
    assert |Alphabet0| == |Alphabet1After9| == 44;
  }

  lemma Alphabet1Rounds0()
    requires SumTo(Salt1, 0) == 0
    ensures Rounds(Salt1, Alphabet0, 0) == Rounds(Salt1, Alphabet1After9, 9)
    ensures SumTo(Salt1, 9) == 977
  {
    hide Rounds, SumTo, Nine, At;
    Alphabet1Exchanges0();
    AtLap(Salt1, 0, 0); AtLap(Salt1, 0, 1); AtLap(Salt1, 0, 2); AtLap(Salt1, 0, 3); AtLap(Salt1, 0, 4);
    AtLap(Salt1, 0, 5); AtLap(Salt1, 0, 6); AtLap(Salt1, 0, 7); AtLap(Salt1, 0, 8);
    Climb(Salt1, Alphabet0, 44, 0, Alphabet1After9,
      0, 1, 2, 3, 4, 5, 6, 7, 8,
      0, 111, 214, 320, 427, 535, 644, 754, 865, 977,
      7, 24, 18, 17, 23, 36, 19, 11, 12);
  }

  lemma Alphabet1Exchanges9()
    ensures Nine(Alphabet1After9, 34, 22, 8, 11, 22, 14, 19, 9, 6, 16) == Alphabet1After18
  {
    assert |Alphabet1After9| == |Alphabet1After18| == 44;
  }

  lemma Alphabet1Rounds9()
    requires SumTo(Salt1, 9) == 977
    ensures Rounds(Salt1, Alphabet1After9, 9) == Rounds(Salt1, Alphabet1After18, 18)
    ensures SumTo(Salt1, 18) == 1935
  {
    hide Rounds, SumTo, Nine, At;
    Alphabet1Exchanges9();
    AtLap(Salt1, 0, 9); AtLap(Salt1, 0, 10); AtLap(Salt1, 0, 11); AtLap(Salt1, 0, 12); AtLap(Salt1, 0, 13);
    AtLap(Salt1, 0, 14); AtLap(Salt1, 0, 15); AtLap(Salt1, 0, 16); AtLap(Salt1, 0, 17);
    Climb(Salt1, Alphabet1After9, 44, 9, Alphabet1After18,
      9, 10, 11, 12, 13, 14, 15, 16, 17,
      977, 1090, 1204, 1322, 1441, 1561, 1682, 1804, 1869, 1935,
      22, 8, 11, 22, 14, 19, 9, 6, 16);
  }

  lemma Alphabet1Exchanges18()
    ensures Nine(Alphabet1After18, 25, 14, 0, 3, 2, 16, 7, 0, 16, 4) == Alphabet1After27
  {
    assert |Alphabet1After18| == |Alphabet1After27| == 44;
  }

  lemma Alphabet1Rounds18()
    requires SumTo(Salt1, 18) == 1935
    ensures Rounds(Salt1, Alphabet1After18, 18) == Rounds(Salt1, Alphabet1After27, 27)
    ensures SumTo(Salt1, 27) == 2602
  {
    hide Rounds, SumTo, Nine, At;
    Alphabet1Exchanges18();
    AtLap(Salt1, 0, 18); AtLap(Salt1, 0, 19); AtLap(Salt1, 0, 20); AtLap(Salt1, 0, 21); AtLap(Salt1, 0, 22);
    AtLap(Salt1, 0, 23); AtLap(Salt1, 0, 24); AtLap(Salt1, 0, 25); AtLap(Salt1, 0, 26);
    Climb(Salt1, Alphabet1After18, 44, 18, Alphabet1After27,
      18, 19, 20, 21, 22, 23, 24, 25, 26,
      1935, 2003, 2072, 2143, 2217, 2292, 2368, 2445, 2523, 2602,
      14, 0, 3, 2, 16, 7, 0, 16, 4);
  }

  lemma Alphabet1Exchanges27()
    ensures Nine(Alphabet1After27, 16, 5, 7, 2, 5, 4, 3, 7, 7, 2) == Alphabet1After36
  {
    assert |Alphabet1After27| == |Alphabet1After36| == 44;
  }

  lemma Alphabet1Rounds27()
    requires SumTo(Salt1, 27) == 2602
    ensures Rounds(Salt1, Alphabet1After27, 27) == Rounds(Salt1, Alphabet1After36, 36)
    ensures SumTo(Salt1, 36) == 3334
  {
    hide Rounds, SumTo, Nine, At;
    Alphabet1Exchanges27();
    AtLap(Salt1, 0, 27); AtLap(Salt1, 0, 28); AtLap(Salt1, 0, 29); AtLap(Salt1, 0, 30); AtLap(Salt1, 0, 31);
    AtLap(Salt1, 0, 32); AtLap(Salt1, 0, 33); AtLap(Salt1, 0, 34); AtLap(Salt1, 0, 35);
    Climb(Salt1, Alphabet1After27, 44, 27, Alphabet1After36,
      27, 28, 29, 30, 31, 32, 33, 34, 35,
      2602, 2682, 2763, 2845, 2931, 3018, 3106, 3195, 3285, 3334,
      5, 7, 2, 5, 4, 3, 7, 7, 2);
  }

  lemma Alphabet1Exchanges36()
    ensures Nine(Alphabet1After36, 7, 5, 1, 2, 0, 1, 1, 0, 0, 0) == Alphabet1
  {
    assert |Alphabet1After36| == |Alphabet1| == 44;
  }

  lemma Alphabet1Rounds36()
    requires SumTo(Salt1, 36) == 3334
    ensures Rounds(Salt1, Alphabet1After36, 36) == Rounds(Salt1, Alphabet1, 45)
  {
    hide Rounds, SumTo, Nine, At;
    Alphabet1Exchanges36();
    AtLap(Salt1, 0, 36); AtLap(Salt1, 0, 37); AtLap(Salt1, 0, 38); AtLap(Salt1, 0, 39); AtLap(Salt1, 0, 40);
    AtLap(Salt1, 0, 41); AtLap(Salt1, 0, 42);
    Climb(Salt1, Alphabet1After36, 44, 36, Alphabet1,
      36, 37, 38, 39, 40, 41, 42, 0, 0,
      3334, 3384, 3435, 3487, 3540, 3594, 3649, 3705, 3705, 3705,
      5, 1, 2, 0, 1, 1, 0, 0, 0);
  }

  lemma Alphabet1Shuffled()
    ensures Reorder(Salt1, Alphabet0) == Alphabet1
  {
    hide Rounds, SumTo, Reorder;
    NoSum(Salt1);
    Alphabet1Rounds0();
    Alphabet1Rounds9();
    Alphabet1Rounds18();
    Alphabet1Rounds27();
    Alphabet1Rounds36();
    AllRounds(Salt1, Alphabet0, Alphabet1, 45);
  }

  lemma Salt2Is()
    ensures |Alphabet1| == 44 && AlphabetSalt('o', "", Alphabet1) == Salt2
  {
    SaltFront('o', "", Alphabet1);
    assert Salt2 == ['o'] + "" + Alphabet1[..43];
  }

  lemma Alphabet2Exchanges0()
    ensures Nine(Alphabet1, 43, 7, 24, 8, 24, 30, 20, 19, 16, 0) == Alphabet2After9
  {
    assert |Alphabet1| == |Alphabet2After9| == 44;
  }

  lemma Alphabet2Rounds0()
    requires SumTo(Salt2, 0) == 0
    ensures Rounds(Salt2, Alphabet1, 0) == Rounds(Salt2, Alphabet2After9, 9)
    ensures SumTo(Salt2, 9) == 816
  {
    hide Rounds, SumTo, Nine, At;
    Alphabet2Exchanges0();
    AtLap(Salt2, 0, 0); AtLap(Salt2, 0, 1); AtLap(Salt2, 0, 2); AtLap(Salt2, 0, 3); AtLap(Salt2, 0, 4);
    AtLap(Salt2, 0, 5); AtLap(Salt2, 0, 6); AtLap(Salt2, 0, 7); AtLap(Salt2, 0, 8);
    Climb(Salt2, Alphabet1, 44, 0, Alphabet2After9,
      0, 1, 2, 3, 4, 5, 6, 7, 8,
      0, 111, 193, 243, 332, 413, 499, 589, 695, 816,
      7, 24, 8, 24, 30, 20, 19, 16, 0);
  }

  lemma Alphabet2Exchanges9()
    ensures Nine(Alphabet2After9, 34, 31, 19, 2, 20, 25, 8, 6, 10, 4) == Alphabet2After18
  {
    assert |Alphabet2After9| == |Alphabet2After18| == 44;
  }

  lemma Alphabet2Rounds9()
    requires SumTo(Salt2, 9) == 816
    ensures Rounds(Salt2, Alphabet2After9, 9) == Rounds(Salt2, Alphabet2After18, 18)
    ensures SumTo(Salt2, 18) == 1515
  {
    hide Rounds, SumTo, Nine, At;
    Alphabet2Exchanges9();
    AtLap(Salt2, 0, 9); AtLap(Salt2, 0, 10); AtLap(Salt2, 0, 11); AtLap(Salt2, 0, 12); AtLap(Salt2, 0, 13);
    AtLap(Salt2, 0, 14); AtLap(Salt2, 0, 15); AtLap(Salt2, 0, 16); AtLap(Salt2, 0, 17);
    Climb(Salt2, Alphabet2After9, 44, 9, Alphabet2After18,
      9, 10, 11, 12, 13, 14, 15, 16, 17,
      816, 895, 1013, 1078, 1132, 1187, 1243, 1331, 1405, 1515,
      31, 19, 2, 20, 25, 8, 6, 10, 4);
  }

  lemma Alphabet2Exchanges18()
    ensures Nine(Alphabet2After18, 25, 1, 17, 16, 3, 12, 1, 8, 8, 5) == Alphabet2After27
  {
    assert |Alphabet2After18| == |Alphabet2After27| == 44;
  }

  lemma Alphabet2Rounds18()
    requires SumTo(Salt2, 18) == 1515
    ensures Rounds(Salt2, Alphabet2After18, 18) == Rounds(Salt2, Alphabet2After27, 27)
    ensures SumTo(Salt2, 27) == 2289
  {
    hide Rounds, SumTo, Nine, At;
    Alphabet2Exchanges18();
    AtLap(Salt2, 0, 18); AtLap(Salt2, 0, 19); AtLap(Salt2, 0, 20); AtLap(Salt2, 0, 21); AtLap(Salt2, 0, 22);
    AtLap(Salt2, 0, 23); AtLap(Salt2, 0, 24); AtLap(Salt2, 0, 25); AtLap(Salt2, 0, 26);
    Climb(Salt2, Alphabet2After18, 44, 18, Alphabet2After27,
      18, 19, 20, 21, 22, 23, 24, 25, 26,
      1515, 1624, 1699, 1756, 1804, 1884, 1991, 2099, 2202, 2289,
      1, 17, 16, 3, 12, 1, 8, 8, 5);
  }

  lemma Alphabet2Exchanges27()
    ensures Nine(Alphabet2After27, 16, 0, 10, 7, 10, 3, 2, 2, 2, 4) == Alphabet2After36
  {
    assert |Alphabet2After27| == |Alphabet2After36| == 44;
  }

  lemma Alphabet2Rounds27()
    requires SumTo(Salt2, 27) == 2289
    ensures Rounds(Salt2, Alphabet2After27, 27) == Rounds(Salt2, Alphabet2After36, 36)
    ensures SumTo(Salt2, 36) == 3045
  {
    hide Rounds, SumTo, Nine, At;
    Alphabet2Exchanges27();
    AtLap(Salt2, 0, 27); AtLap(Salt2, 0, 28); AtLap(Salt2, 0, 29); AtLap(Salt2, 0, 30); AtLap(Salt2, 0, 31);
    AtLap(Salt2, 0, 32); AtLap(Salt2, 0, 33); AtLap(Salt2, 0, 34); AtLap(Salt2, 0, 35);
    Climb(Salt2, Alphabet2After27, 44, 27, Alphabet2After36,
      27, 28, 29, 30, 31, 32, 33, 34, 35,
      2289, 2355, 2466, 2580, 2632, 2754, 2803, 2856, 2969, 3045,
      0, 10, 7, 10, 3, 2, 2, 2, 4);
  }

  lemma Alphabet2Exchanges36()
    ensures Nine(Alphabet2After36, 7, 3, 2, 4, 0, 0, 0, 0, 0, 0) == Alphabet2
  {
    assert |Alphabet2After36| == |Alphabet2| == 44;
  }

  lemma Alphabet2Rounds36()
    requires SumTo(Salt2, 36) == 3045
    ensures Rounds(Salt2, Alphabet2After36, 36) == Rounds(Salt2, Alphabet2, 45)
  {
    hide Rounds, SumTo, Nine, At;
    Alphabet2Exchanges36();
    AtLap(Salt2, 0, 36); AtLap(Salt2, 0, 37); AtLap(Salt2, 0, 38); AtLap(Salt2, 0, 39); AtLap(Salt2, 0, 40);
    AtLap(Salt2, 0, 41); AtLap(Salt2, 0, 42);
    Climb(Salt2, Alphabet2After36, 44, 36, Alphabet2,
      36, 37, 38, 39, 40, 41, 42, 0, 0,
      3045, 3165, 3284, 3355, 3406, 3483, 3551, 3620, 3620, 3620,
      3, 2, 4, 0, 0, 0, 0, 0, 0);
  }

  lemma Alphabet2Shuffled()
    ensures Reorder(Salt2, Alphabet1) == Alphabet2
  {
    hide Rounds, SumTo, Reorder;
    NoSum(Salt2);
    Alphabet2Rounds0();
    Alphabet2Rounds9();
    Alphabet2Rounds18();
    Alphabet2Rounds27();
    Alphabet2Rounds36();
    AllRounds(Salt2, Alphabet1, Alphabet2, 45);
  }

  lemma Salt3Is()
    ensures |Alphabet2| == 44 && AlphabetSalt('o', "", Alphabet2) == Salt3
  {
    SaltFront('o', "", Alphabet2);
    assert Salt3 == ['o'] + "" + Alphabet2[..43];
  }

  lemma Alphabet3Exchanges0()
    ensures Nine(Alphabet2, 43, 7, 12, 7, 0, 22, 32, 18, 19, 16) == Alphabet3After9
  {
    assert |Alphabet2| == |Alphabet3After9| == 44;
  }

  lemma Alphabet3Rounds0()
    requires SumTo(Salt3, 0) == 0
    ensures Rounds(Salt3, Alphabet2, 0) == Rounds(Salt3, Alphabet3After9, 9)
    ensures SumTo(Salt3, 9) == 838
  {
    hide Rounds, SumTo, Nine, At;
    Alphabet3Exchanges0();
    AtLap(Salt3, 0, 0); AtLap(Salt3, 0, 1); AtLap(Salt3, 0, 2); AtLap(Salt3, 0, 3); AtLap(Salt3, 0, 4);
    AtLap(Salt3, 0, 5); AtLap(Salt3, 0, 6); AtLap(Salt3, 0, 7); AtLap(Salt3, 0, 8);
    Climb(Salt3, Alphabet2, 44, 0, Alphabet3After9,
      0, 1, 2, 3, 4, 5, 6, 7, 8,
      0, 111, 187, 301, 389, 457, 565, 640, 758, 838,
      7, 12, 7, 0, 22, 32, 18, 19, 16);
  }

  lemma Alphabet3Exchanges9()
    ensures Nine(Alphabet3After9, 34, 27, 3, 23, 16, 4, 2, 3, 5, 12) == Alphabet3After18
  {
    assert |Alphabet3After9| == |Alphabet3After18| == 44;
  }

  lemma Alphabet3Rounds9()
    requires SumTo(Salt3, 9) == 838
    ensures Rounds(Salt3, Alphabet3After9, 9) == Rounds(Salt3, Alphabet3After18, 18)
    ensures SumTo(Salt3, 18) == 1591
  {
    hide Rounds, SumTo, Nine, At;
    Alphabet3Exchanges9();
    AtLap(Salt3, 0, 9); AtLap(Salt3, 0, 10); AtLap(Salt3, 0, 11); AtLap(Salt3, 0, 12); AtLap(Salt3, 0, 13);
    AtLap(Salt3, 0, 14); AtLap(Salt3, 0, 15); AtLap(Salt3, 0, 16); AtLap(Salt3, 0, 17);
    Climb(Salt3, Alphabet3After9, 44, 9, Alphabet3After18,
      9, 10, 11, 12, 13, 14, 15, 16, 17,
      838, 904, 960, 1014, 1067, 1174, 1248, 1360, 1471, 1591,
      27, 3, 23, 16, 4, 2, 3, 5, 12);
  }

  lemma Alphabet3Exchanges18()
    ensures Nine(Alphabet3After18, 25, 14, 6, 9, 19, 18, 3, 3, 9, 16) == Alphabet3After27
  {
    assert |Alphabet3After18| == |Alphabet3After27| == 44;
  }

  lemma Alphabet3Rounds18()
    requires SumTo(Salt3, 18) == 1591
    ensures Rounds(Salt3, Alphabet3After18, 18) == Rounds(Salt3, Alphabet3After27, 27)
    ensures SumTo(Salt3, 27) == 2337
  {
    hide Rounds, SumTo, Nine, At;
    Alphabet3Exchanges18();
    AtLap(Salt3, 0, 18); AtLap(Salt3, 0, 19); AtLap(Salt3, 0, 20); AtLap(Salt3, 0, 21); AtLap(Salt3, 0, 22);
    AtLap(Salt3, 0, 23); AtLap(Salt3, 0, 24); AtLap(Salt3, 0, 25); AtLap(Salt3, 0, 26);
    Climb(Salt3, Alphabet3After18, 44, 18, Alphabet3After27,
      18, 19, 20, 21, 22, 23, 24, 25, 26,
      1591, 1681, 1794, 1846, 1923, 1978, 2059, 2178, 2287, 2337,
      14, 6, 9, 19, 18, 3, 3, 9, 16);
  }

  lemma Alphabet3Exchanges27()
    ensures Nine(Alphabet3After27, 16, 8, 1, 13, 6, 0, 2, 2, 6, 6) == Alphabet3After36
  {
    assert |Alphabet3After27| == |Alphabet3After36| == 44;
  }

  lemma Alphabet3Rounds27()
    requires SumTo(Salt3, 27) == 2337
    ensures Rounds(Salt3, Alphabet3After27, 27) == Rounds(Salt3, Alphabet3After36, 36)
    ensures SumTo(Salt3, 36) == 3010
  {
    hide Rounds, SumTo, Nine, At;
    Alphabet3Exchanges27();
    AtLap(Salt3, 0, 27); AtLap(Salt3, 0, 28); AtLap(Salt3, 0, 29); AtLap(Salt3, 0, 30); AtLap(Salt3, 0, 31);
    AtLap(Salt3, 0, 32); AtLap(Salt3, 0, 33); AtLap(Salt3, 0, 34); AtLap(Salt3, 0, 35);
    Climb(Salt3, Alphabet3After27, 44, 27, Alphabet3After36,
      27, 28, 29, 30, 31, 32, 33, 34, 35,
      2337, 2423, 2488, 2594, 2663, 2750, 2801, 2890, 2961, 3010,
      8, 1, 13, 6, 0, 2, 2, 6, 6);
  }

  lemma Alphabet3Exchanges36()
    ensures Nine(Alphabet3After36, 7, 4, 1, 4, 2, 0, 0, 0, 0, 0) == Alphabet3
  {
    assert |Alphabet3After36| == |Alphabet3| == 44;
  }

  lemma Alphabet3Rounds36()
    requires SumTo(Salt3, 36) == 3010
    ensures Rounds(Salt3, Alphabet3After36, 36) == Rounds(Salt3, Alphabet3, 45)
  {
    hide Rounds, SumTo, Nine, At;
    Alphabet3Exchanges36();
    AtLap(Salt3, 0, 36); AtLap(Salt3, 0, 37); AtLap(Salt3, 0, 38); AtLap(Salt3, 0, 39); AtLap(Salt3, 0, 40);
    AtLap(Salt3, 0, 41); AtLap(Salt3, 0, 42);
    Climb(Salt3, Alphabet3After36, 44, 36, Alphabet3,
      36, 37, 38, 39, 40, 41, 42, 0, 0,
      3010, 3092, 3202, 3259, 3307, 3429, 3507, 3586, 3586, 3586,
      4, 1, 4, 2, 0, 0, 0, 0, 0);
  }

  lemma Alphabet3Shuffled()
    ensures Reorder(Salt3, Alphabet2) == Alphabet3
  {
    hide Rounds, SumTo, Reorder;
    NoSum(Salt3);
    Alphabet3Rounds0();
    Alphabet3Rounds9();
    Alphabet3Rounds18();
    Alphabet3Rounds27();
    Alphabet3Rounds36();
    AllRounds(Salt3, Alphabet2, Alphabet3, 45);
  }

  lemma Front()
    ensures Reorder("", BASE_SEPARATORS) == BASE_SEPARATORS && Reorder("", KEPT) == KEPT
    ensures |KEPT| == 48 && KEPT[..4] == "abde" && KEPT[4..] == Alphabet0
  {
    KeptGrouped("1234567890");
    CutFour("jklmnopqrvwxyz" + ("ABDEG" + ("JKLMNOPQRVWXYZ" + "1234567890")));
  }

  lemma Configured()
    ensures Build(0, "", "") == Ok(Config(0, "", Alphabet0, BASE_SEPARATORS, "abde"))
    ensures Encodable(Config(0, "", Alphabet0, BASE_SEPARATORS, "abde")) && |BASE_SEPARATORS| == 14
  {
    hide Build, Encodable, Reorder;
    Front();
    DefaultBuild("", BASE_SEPARATORS, KEPT);
  }

  lemma Picks()
    ensures |Alphabet0| == |Alphabet1| == |Alphabet2| == |Alphabet3| == 44 && |BASE_SEPARATORS| == 14
    ensures Alphabet0[6] == 'o' && Alphabet1[1] == '2' && Alphabet2[2] == 'X' && Alphabet3[3] == 'V'
    ensures BASE_SEPARATORS[1] == 'f' && BASE_SEPARATORS[2] == 'h'
  {
  }

  lemma Shuffles(cfg: Config)
    requires cfg.alphabet == Alphabet0 && cfg.salt == ""
    requires |Alphabet0| == |Alphabet1| == |Alphabet2| == 44
    ensures Shuffle(cfg, 'o', Alphabet0) == Alphabet1
    ensures Shuffle(cfg, 'o', Alphabet1) == Alphabet2
    ensures Shuffle(cfg, 'o', Alphabet2) == Alphabet3
  {
    hide Reorder, AlphabetSalt, Shuffle;
    Salt1Is();
    Alphabet1Shuffled();
    ShuffleIs(cfg, 'o', Alphabet0, Salt1, Alphabet1);
    Salt2Is();
    Alphabet2Shuffled();
    ShuffleIs(cfg, 'o', Alphabet1, Salt2, Alphabet2);
    Salt3Is();
    Alphabet3Shuffled();
    ShuffleIs(cfg, 'o', Alphabet2, Salt3, Alphabet3);
  }

  lemma ThreeEncoded(cfg: Config)
    requires Encodable(cfg) && cfg == Config(0, "", Alphabet0, BASE_SEPARATORS, "abde")
    ensures Encode(cfg, [1, 2, 3]) == "o2fXhV"
  {
    hide Encode, Shuffle, Encodable, Code;
    Picks();
    Shuffles(cfg);
    Codes();
    EncodeThreeAs(cfg, 'o', Alphabet1, Alphabet2, Alphabet3, '2', 'f', 'X', 'h', 'V');
  }

  lemma Codes()
    ensures Code('2') == 50 && Code('X') == 88
  {
  }

  // The code of 1, 2, 3.
  lemma CodeOfThree()
    ensures Build(0, "", "").Ok?
    ensures
      var cfg := Build(0, "", "").value;
      Encodable(cfg) && Encode(cfg, [1, 2, 3]) == "o2fXhV"
  {
    hide Build, Encode, Encodable;
    Configured();
    ThreeEncoded(Build(0, "", "").value);
  }
}
