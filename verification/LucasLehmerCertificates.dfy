/** Orbits of the Lucas-Lehmer step modulo small factors of 2^p - 1, as explicit certificates.
    They show that no residue before the last one is 0 or 1 for 3 <= p <= 64, where the machine's
    unsigned subtraction of 2 would wrap around. */
module LucasLehmerCertificates {
  import opened NumberTheory
  import opened LucasLehmerTheorem

  /** No S(k) with lo <= k < hi is 0 or 1 modulo q. */
  ghost predicate Clean(q: int, lo: nat, hi: nat)
    requires q > 0
  {
    forall k :: lo <= k < hi ==> S(k) % q != 0 && S(k) % q != 1
  }

  /** From residue x > 1, one step of the sequence leads to y. */
  predicate Step(q: int, x: int, y: int)
    requires q > 0
  {
    x > 1 && (x * x - 2) % q == y
  }

  lemma StepFollowsS(q: int, k: nat, x: int, y: int)
    requires q > 0 && S(k) % q == x && Step(q, x, y)
    ensures S(k + 1) % q == y
  {
    SquareStep(q, S(k), x) by { ModCong(q, S(k)); }
    CongIsEqualMod(q, S(k + 1), x * x - 2);
  }

  lemma SmallRemainder(x: int, m: int)
    requires 0 <= x < m
    ensures x % m == x
  {
  }

  lemma SquareStep(q: int, x: int, y: int)
    requires Cong(q, x, y)
    ensures Cong(q, x * x - 2, y * y - 2)
  {
    CongMul(q, x, y, x, y);
    CongRefl(q, -2);
    CongAdd(q, x * x, y * y, -2, -2);
  }

  /** Extends a clean orbit by one step, from residue x to y. */
  lemma One(q: int, k: nat, x: int, y: int)
    requires q > 0 && S(k) % q == x && Step(q, x, y) && Clean(q, 0, k)
    ensures S(k + 1) % q == y && Clean(q, 0, k + 1)
  {
    hide S;
    StepFollowsS(q, k, x, y);
  }

  /** Extends a clean orbit by seven steps. */
  lemma Seven(q: int, k: nat, a: int, b: int, c: int, d: int, e: int, f: int, g: int, h: int)
    requires q > 0 && S(k) % q == a && Clean(q, 0, k)
    requires Step(q, a, b) && Step(q, b, c) && Step(q, c, d) && Step(q, d, e)
    requires Step(q, e, f) && Step(q, f, g) && Step(q, g, h)
    ensures S(k + 7) % q == h && Clean(q, 0, k + 7)
  {
    hide S, Step, Clean;
    One(q, k, a, b);
    One(q, k + 1, b, c);
    One(q, k + 2, c, d);
    One(q, k + 3, d, e);
    One(q, k + 4, e, f);
    One(q, k + 5, f, g);
    One(q, k + 6, g, h);
  }

  lemma Start(q: int)
    requires q > 4
    ensures S(0) % q == 4 && Clean(q, 0, 0)
  {
  }

  lemma {:induction false} Shift(q: int, i: nat, j: nat, t: nat)
    requires q > 0 && S(i) % q == S(j) % q
    ensures S(i + t) % q == S(j + t) % q
  {
    if t == 0 {
    } else {
      Shift(q, i, j, t - 1);
      var x, y := S(i + t - 1), S(j + t - 1);
      CongIsEqualMod(q, x, y);
      SquareStep(q, x, y);
      CongIsEqualMod(q, x * x - 2, y * y - 2);
    }
  }

  /** Once a residue repeats, a clean orbit stays clean. */
  lemma {:induction false} Periodic(q: int, i: nat, j: nat, n: nat)
    requires q > 0 && i < j && S(i) % q == S(j) % q && Clean(q, 0, j)
    ensures Clean(q, 0, n)
    decreases n
  {
    hide S;
    if n > j {
      Periodic(q, i, j, n - 1);
      Shift(q, i, j, n - 1 - j);
    }
  }

  lemma OrbitM5()
    ensures S(3) % 31 == 0 && Clean(31, 0, 3)
  {
    hide S, Clean;
    Start(31);
    One(31, 0, 4, 14);
    One(31, 1, 14, 8);
    One(31, 2, 8, 0);
  }

  lemma OrbitM7()
    ensures S(5) % 127 == 0 && Clean(127, 0, 5)
  {
    hide S, Clean;
    Start(127);
    One(127, 0, 4, 14);
    One(127, 1, 14, 67);
    One(127, 2, 67, 42);
    One(127, 3, 42, 111);
    One(127, 4, 111, 0);
  }

  lemma OrbitM13()
    ensures S(11) % 8191 == 0 && Clean(8191, 0, 11)
  {
    hide S, Clean;
    Start(8191);
    Seven(8191, 0, 4, 14, 194, 4870, 3953, 5970, 1857, 36);
    One(8191, 7, 36, 1294);
    One(8191, 8, 1294, 3470);
    One(8191, 9, 3470, 128);
    One(8191, 10, 128, 0);
  }

  lemma OrbitM17()
    ensures S(15) % 131071 == 0 && Clean(131071, 0, 15)
  {
    hide S, Clean;
    Start(131071);
    Seven(131071, 0, 4, 14, 194, 37634, 95799, 119121, 66179, 53645);
    Seven(131071, 7, 53645, 122218, 126220, 70490, 69559, 99585, 78221, 130559);
    One(131071, 14, 130559, 0);
  }

  lemma OrbitM19()
    ensures S(17) % 524287 == 0 && Clean(524287, 0, 17)
  {
    hide S, Clean;
    Start(524287);
    Seven(524287, 0, 4, 14, 194, 37634, 218767, 510066, 386344, 323156);
    Seven(524287, 7, 323156, 218526, 504140, 103469, 417706, 307417, 382989, 275842);
    One(524287, 14, 275842, 85226);
    One(524287, 15, 85226, 523263);
    One(524287, 16, 523263, 0);
  }

  lemma OrbitM31A()
    ensures S(28) % 2147483647 == 65536 && Clean(2147483647, 0, 28)
  {
    hide S, Clean;
    Start(2147483647);
    Seven(2147483647, 0, 4, 14, 194, 37634, 1416317954, 669670838, 1937259419, 425413602);
    Seven(2147483647, 7, 425413602, 842014276, 12692426, 2044502122, 1119438707, 1190075270, 1450757861, 877666528);
    Seven(2147483647, 14, 877666528, 630853853, 940321271, 512995887, 692931217, 1883625615, 1992425718, 721929267);
    Seven(2147483647, 21, 721929267, 27220594, 1570086542, 1676390412, 1159251674, 211987665, 1181536708, 65536);
  }

  lemma OrbitM31B()
    ensures S(29) % 2147483647 == 0 && Clean(2147483647, 0, 29)
  {
    hide S, Clean;
    OrbitM31A();
    One(2147483647, 28, 65536, 0);
  }

  lemma OrbitM61A()
    ensures S(28) % 2305843009213693951 == 1994472770237557072 && Clean(2305843009213693951, 0, 28)
  {
    hide S, Clean;
    Start(2305843009213693951);
    Seven(2305843009213693951, 0, 4, 14, 194, 37634, 1416317954, 2005956546822746114, 360360107812989935,
      21902747593568545);
    Seven(2305843009213693951, 7, 21902747593568545, 1740602589084945420, 1337198076820436604, 2247350346121565718,
      83171871456026787, 582723273476042577, 389768199659558512, 1660083560587298637);
    Seven(2305843009213693951, 14, 1660083560587298637, 1309051187682605027, 2060268568186095243, 1727984905136219803,
      1123503237312787381, 720442006828744208, 1762244237164037571, 675035788244419149);
    Seven(2305843009213693951, 21, 675035788244419149, 403242138936649547, 23218429299703654, 2303338777166369587,
      1807999318695779203, 2117213806962939560, 608422148964310898, 1994472770237557072);
  }

  lemma OrbitM61B()
    ensures S(56) % 2305843009213693951 == 1394647967359914492 && Clean(2305843009213693951, 0, 56)
  {
    hide S, Clean;
    OrbitM61A();
    Seven(2305843009213693951, 28, 1994472770237557072, 505071132657882993, 1458686264893839860, 828943682511799464,
      1873899805900111440, 2100166639529159434, 1690337638073925992, 1850462809098646917);
    Seven(2305843009213693951, 35, 1850462809098646917, 655691867230185654, 1312985360173846259, 555029261697599761,
      361044435199227874, 526190922173809863, 1323436870952128874, 891169157258972721);
    Seven(2305843009213693951, 42, 891169157258972721, 185842366834216629, 222804261526276637, 991039614021822014,
      481713520561357424, 1344980214107405881, 1970899971015200366, 1072613472477948613);
    Seven(2305843009213693951, 49, 1072613472477948613, 1908660977355480791, 863790468803724241, 2198539655050736259,
      1534797684548241153, 257154353612781495, 2098355710732986488, 1394647967359914492);
  }

  lemma OrbitM61C()
    ensures S(59) % 2305843009213693951 == 0 && Clean(2305843009213693951, 0, 59)
  {
    hide S, Clean;
    OrbitM61B();
    One(2305843009213693951, 56, 1394647967359914492, 1080792493261747995);
    One(2305843009213693951, 57, 1080792493261747995, 2147483648);
    One(2305843009213693951, 58, 2147483648, 0);
  }

  lemma Orbit23()
    ensures S(5) % 23 == 4 && Clean(23, 0, 5)
  {
    hide S, Clean;
    Start(23);
    One(23, 0, 4, 14);
    One(23, 1, 14, 10);
    One(23, 2, 10, 6);
    One(23, 3, 6, 11);
    One(23, 4, 11, 4);
  }

  lemma Orbit47()
    ensures S(11) % 47 == 4 && Clean(47, 0, 11)
  {
    hide S, Clean;
    Start(47);
    Seven(47, 0, 4, 14, 6, 34, 26, 16, 19, 30);
    One(47, 7, 30, 5);
    One(47, 8, 5, 23);
    One(47, 9, 23, 10);
    One(47, 10, 10, 4);
  }

  lemma Orbit601()
    ensures S(22) % 601 == 194 && Clean(601, 0, 22)
  {
    hide S, Clean;
    Start(601);
    Seven(601, 0, 4, 14, 194, 372, 152, 264, 579, 482);
    Seven(601, 7, 482, 336, 507, 420, 305, 469, 594, 47);
    Seven(601, 14, 47, 404, 343, 452, 563, 240, 503, 587);
    One(601, 21, 587, 194);
  }

  lemma Orbit233()
    ensures S(13) % 233 == 14 && Clean(233, 0, 13)
  {
    hide S, Clean;
    Start(233);
    Seven(233, 0, 4, 14, 194, 121, 193, 200, 155, 24);
    One(233, 7, 24, 108);
    One(233, 8, 108, 12);
    One(233, 9, 12, 142);
    One(233, 10, 142, 124);
    One(233, 11, 124, 229);
    One(233, 12, 229, 14);
  }

  lemma Orbit71()
    ensures S(3) % 71 == 4 && Clean(71, 0, 3)
  {
    hide S, Clean;
    Start(71);
    One(71, 0, 4, 14);
    One(71, 1, 14, 52);
    One(71, 2, 52, 4);
  }

  lemma Orbit223()
    ensures S(8) % 223 == 211 && Clean(223, 0, 8)
  {
    hide S, Clean;
    Start(223);
    Seven(223, 0, 4, 14, 194, 170, 131, 211, 142, 92);
    One(223, 7, 92, 211);
  }

  lemma Orbit431()
    ensures S(28) % 431 == 4 && Clean(431, 0, 28)
  {
    hide S, Clean;
    Start(431);
    Seven(431, 0, 4, 14, 194, 137, 234, 17, 287, 46);
    Seven(431, 7, 46, 390, 386, 299, 182, 366, 344, 240);
    Seven(431, 14, 240, 275, 198, 412, 359, 10, 98, 120);
    Seven(431, 21, 120, 175, 22, 51, 13, 167, 303, 4);
  }

  lemma Orbit13367A()
    ensures S(28) % 13367 == 11230 && Clean(13367, 0, 28)
  {
    hide S, Clean;
    Start(13367);
    Seven(13367, 0, 4, 14, 194, 10900, 4102, 10716, 10124, 10585);
    Seven(13367, 7, 10585, 29, 839, 8835, 7310, 8199, 956, 4978);
    Seven(13367, 14, 4978, 11431, 5334, 6578, 1103, 210, 3997, 2442);
    Seven(13367, 21, 2442, 1680, 1961, 9190, 3392, 10042, 1114, 11230);
  }

  lemma Orbit13367B()
    ensures S(42) % 13367 == 12170 && Clean(13367, 0, 42)
  {
    hide S, Clean;
    Orbit13367A();
    Seven(13367, 28, 11230, 8620, 10612, 10934, 11273, 458, 9257, 9577);
    Seven(13367, 35, 9577, 7940, 4826, 4960, 6318, 3260, 833, 12170);
  }

  lemma Orbit2351A()
    ensures S(28) % 2351 == 1189 && Clean(2351, 0, 28)
  {
    hide S, Clean;
    Start(2351);
    Seven(2351, 0, 4, 14, 194, 18, 322, 238, 218, 502);
    Seven(2351, 7, 502, 445, 539, 1346, 1444, 2148, 1240, 44);
    Seven(2351, 14, 44, 1934, 2264, 514, 882, 2092, 1251, 1584);
    Seven(2351, 21, 1584, 537, 1545, 758, 918, 1064, 1263, 1189);
  }

  lemma Orbit2351B()
    ensures S(49) % 2351 == 1050 && Clean(2351, 0, 49)
  {
    hide S, Clean;
    Orbit2351A();
    Seven(2351, 28, 1189, 768, 2072, 256, 2057, 1798, 177, 764);
    Seven(2351, 35, 764, 646, 1187, 718, 653, 876, 948, 620);
    Seven(2351, 42, 620, 1185, 676, 880, 919, 550, 1570, 1050);
  }

  lemma Orbit4432676798593A()
    ensures S(28) % 4432676798593 == 4296664286403 && Clean(4432676798593, 0, 28)
  {
    hide S, Clean;
    Start(4432676798593);
    Seven(4432676798593, 0, 4, 14, 194, 37634, 1416317954, 1853741067080, 3813718690786, 2921913467027);
    Seven(4432676798593, 7, 2921913467027, 483631803165, 645162308232, 3420896945530, 4091574074877, 107728051956,
      2277614414656, 4160347106998);
    Seven(4432676798593, 14, 4160347106998, 3926830680277, 1164596776157, 1824061919185, 1433043829821, 3786915982395,
      3299197929788, 3491196923941);
    Seven(4432676798593, 21, 3491196923941, 1469897494895, 2461062892244, 387228160487, 4258205290869, 1623416314840,
      1465794340635, 4296664286403);
  }

  lemma Orbit4432676798593B()
    ensures S(45) % 4432676798593 == 37634 && Clean(4432676798593, 0, 45)
  {
    hide S, Clean;
    Orbit4432676798593A();
    Seven(4432676798593, 28, 4296664286403, 472595453431, 155528129540, 3346561288315, 1185576963687, 3575178967699,
      3934233970923, 3768907190509);
    Seven(4432676798593, 35, 3768907190509, 2574281051333, 3234663621675, 2834633927283, 1355272068242, 369956290797,
      1820356753322, 3219787330333);
    One(4432676798593, 42, 3219787330333, 3195891372375);
    One(4432676798593, 43, 3195891372375, 4432676798399);
    One(4432676798593, 44, 4432676798399, 37634);
  }

  lemma Orbit6361A()
    ensures S(28) % 6361 == 4702 && Clean(6361, 0, 28)
  {
    hide S, Clean;
    Start(6361);
    Seven(6361, 0, 4, 14, 194, 5829, 3138, 214, 1267, 2315);
    Seven(6361, 7, 2315, 3261, 4888, 626, 3853, 5394, 20, 398);
    Seven(6361, 14, 398, 5738, 106, 4873, 514, 3393, 5398, 5022);
    Seven(6361, 21, 5022, 5478, 3645, 4255, 1617, 316, 4439, 4702);
  }

  lemma Orbit6361B()
    ensures S(56) % 6361 == 3138 && Clean(6361, 0, 56)
  {
    hide S, Clean;
    Orbit6361A();
    Seven(6361, 28, 4702, 4327, 2504, 4429, 5076, 3724, 1194, 770);
    Seven(6361, 35, 770, 1325, 6348, 167, 2443, 1629, 1102, 5812);
    Seven(6361, 42, 5812, 2432, 5253, 6350, 119, 1437, 4003, 648);
    Seven(6361, 49, 648, 76, 5774, 1073, 6347, 194, 5829, 3138);
  }

  lemma Orbit179951A()
    ensures S(28) % 179951 == 156417 && Clean(179951, 0, 28)
  {
    hide S, Clean;
    Start(179951);
    Seven(179951, 0, 4, 14, 194, 37634, 103584, 66679, 39682, 89872);
    Seven(179951, 7, 89872, 55698, 91913, 19921, 54284, 55029, 155362, 163510);
    Seven(179951, 14, 163510, 20077, 175638, 67014, 19038, 24128, 18897, 73823);
    Seven(179951, 21, 73823, 19292, 42594, 162803, 13968, 38138, 143060, 156417);
  }

  lemma Orbit179951B()
    ensures S(56) % 179951 == 77466 && Clean(179951, 0, 56)
  {
    hide S, Clean;
    Orbit179951A();
    Seven(179951, 28, 156417, 139927, 176723, 162775, 75285, 94527, 66773, 167551);
    Seven(179951, 35, 167551, 81844, 124261, 100564, 51845, 155887, 173727, 48709);
    Seven(179951, 42, 48709, 92695, 62675, 5244, 146982, 50919, 10551, 113881);
    Seven(179951, 49, 113881, 173491, 162917, 76142, 122795, 157831, 7629, 77466);
  }

  lemma Orbit179951C()
    ensures S(63) % 179951 == 34634 && Clean(179951, 0, 63)
  {
    hide S, Clean;
    Orbit179951B();
    Seven(179951, 56, 77466, 155157, 29818, 155182, 50400, 151633, 47466, 34634);
  }

  /** 2^d - 1 divides 2^(d k) - 1. */
  lemma {:induction false} MersenneDivides(d: nat, k: nat)
    ensures 0 <= d * k
    ensures Divides(Pow2(d) - 1, Pow2(d * k) - 1)
  {
    if k == 0 {
      DividesZero(Pow2(d) - 1);
    } else {
      MersenneDivides(d, k - 1);
      var n := d * (k - 1);
      assert d * k == d + n;
      Pow2Add(d, n);
      Telescope(Pow2(d), Pow2(n));
      DividesScale(Pow2(d) - 1, Pow2(n) - 1, Pow2(d));
      DividesBy(Pow2(d) - 1, Pow2(d) - 1, 1);
      DividesAdd(Pow2(d) - 1, Pow2(d) * (Pow2(n) - 1), Pow2(d) - 1);
    }
  }

  lemma Telescope(a: int, b: int)
    ensures a * b - 1 == a * (b - 1) + (a - 1)
  {
  }

  lemma ResidueDescends(q: int, m: int, x: int)
    requires q >= 2 && m > 0 && Divides(q, m)
    ensures x % m == 0 ==> x % q == 0
    ensures x % m == 1 ==> x % q == 1
  {
    var r := x % m;
    ModCong(m, x);
    DividesTrans(q, m, x - r);
    CongIsEqualMod(q, x, r);
    if r < q { SmallRemainder(r, q); }
  }

  /** A clean orbit modulo a factor of m is clean modulo m. */
  lemma CleanUp(q: int, m: int, lo: nat, hi: nat)
    requires q >= 2 && m > 0 && Divides(q, m) && Clean(q, lo, hi)
    ensures Clean(m, lo, hi)
  {
    hide S;
    forall k | lo <= k < hi ensures S(k) % m != 0 && S(k) % m != 1 {
      ResidueDescends(q, m, S(k));
    }
  }

  lemma Pow2Up(k: nat, v: int)
    requires Pow2(k) == v
    ensures Pow2(k + 2) == 4 * v && Pow2(k + 4) == 16 * v && Pow2(k + 6) == 64 * v
  {
    assert Pow2(k + 1) == 2 * Pow2(k);
    assert Pow2(k + 2) == 2 * Pow2(k + 1);
    assert Pow2(k + 3) == 2 * Pow2(k + 2);
    assert Pow2(k + 4) == 2 * Pow2(k + 3);
    assert Pow2(k + 5) == 2 * Pow2(k + 4);
  }

  lemma Pow2ToThirtyOne()
    ensures Pow2(1) == 2 && Pow2(3) == 8 && Pow2(5) == 32
    ensures Pow2(7) == 128 && Pow2(9) == 512 && Pow2(11) == 2048
    ensures Pow2(13) == 8192 && Pow2(15) == 32768 && Pow2(17) == 131072
    ensures Pow2(19) == 524288 && Pow2(21) == 2097152 && Pow2(23) == 8388608
    ensures Pow2(25) == 33554432 && Pow2(27) == 134217728 && Pow2(29) == 536870912
    ensures Pow2(31) == 2147483648
  {
    assert Pow2(1) == 2 * Pow2(0);
    hide Pow2;
    Pow2Up(1, 2);
    Pow2Up(7, 128);
    Pow2Up(13, 8192);
    Pow2Up(19, 524288);
    Pow2Up(25, 33554432);
  }

  lemma Pow2ToSixtyOne()
    ensures Pow2(33) == 8589934592 && Pow2(35) == 34359738368 && Pow2(37) == 137438953472
    ensures Pow2(39) == 549755813888 && Pow2(41) == 2199023255552 && Pow2(43) == 8796093022208
    ensures Pow2(45) == 35184372088832 && Pow2(47) == 140737488355328 && Pow2(49) == 562949953421312
    ensures Pow2(51) == 2251799813685248 && Pow2(53) == 9007199254740992 && Pow2(55) == 36028797018963968
    ensures Pow2(57) == 144115188075855872 && Pow2(59) == 576460752303423488 && Pow2(61) == 2305843009213693952
  {
    hide Pow2;
    Pow2ToThirtyOne();
    Pow2Up(31, 2147483648);
    Pow2Up(37, 137438953472);
    Pow2Up(43, 8796093022208);
    Pow2Up(49, 562949953421312);
    Pow2Up(55, 36028797018963968);
  }

  lemma EarlyTerms()
    ensures S(1) == 14 && S(2) == 194 && S(3) == 37634
  {
    assert S(0) == 4;
    assert S(1) == 14;
    assert S(2) == 194;
  }

  lemma CleanPart(q: int, hi: nat, n: nat)
    requires q > 0 && hi <= n && Clean(q, 0, n)
    ensures Clean(q, 0, hi)
  {
  }

  lemma Mersenne5()
    ensures Divides(31, Pow2(5) - 1) && Clean(31, 0, 3)
  {
    hide S, Pow2, Clean;
    Pow2ToThirtyOne();
    DividesBy(31, Pow2(5) - 1, 1);
    OrbitM5();
    CleanPart(31, 3, 3);
  }

  lemma Mersenne7()
    ensures Divides(127, Pow2(7) - 1) && Clean(127, 0, 5)
  {
    hide S, Pow2, Clean;
    Pow2ToThirtyOne();
    DividesBy(127, Pow2(7) - 1, 1);
    OrbitM7();
    CleanPart(127, 5, 5);
  }

  lemma Mersenne11()
    ensures Divides(23, Pow2(11) - 1) && Clean(23, 0, 9)
  {
    hide S, Pow2, Clean;
    Pow2ToThirtyOne();
    DividesBy(23, Pow2(11) - 1, 89);
    Orbit23();
    Start(23);
    Periodic(23, 0, 5, 9);
  }

  lemma Mersenne13()
    ensures Divides(8191, Pow2(13) - 1) && Clean(8191, 0, 11)
  {
    hide S, Pow2, Clean;
    Pow2ToThirtyOne();
    DividesBy(8191, Pow2(13) - 1, 1);
    OrbitM13();
    CleanPart(8191, 11, 11);
  }

  lemma Mersenne17()
    ensures Divides(131071, Pow2(17) - 1) && Clean(131071, 0, 15)
  {
    hide S, Pow2, Clean;
    Pow2ToThirtyOne();
    DividesBy(131071, Pow2(17) - 1, 1);
    OrbitM17();
    CleanPart(131071, 15, 15);
  }

  lemma Mersenne19()
    ensures Divides(524287, Pow2(19) - 1) && Clean(524287, 0, 17)
  {
    hide S, Pow2, Clean;
    Pow2ToThirtyOne();
    DividesBy(524287, Pow2(19) - 1, 1);
    OrbitM19();
    CleanPart(524287, 17, 17);
  }

  lemma Mersenne23()
    ensures Divides(47, Pow2(23) - 1) && Clean(47, 0, 21)
  {
    hide S, Pow2, Clean;
    Pow2ToThirtyOne();
    DividesBy(47, Pow2(23) - 1, 178481);
    Orbit47();
    Start(47);
    Periodic(47, 0, 11, 21);
  }

  lemma Mersenne25()
    ensures Divides(601, Pow2(25) - 1) && Clean(601, 0, 23)
  {
    hide S, Pow2, Clean;
    Pow2ToThirtyOne();
    DividesBy(601, Pow2(25) - 1, 55831);
    Orbit601();
    EarlyTerms();
    Periodic(601, 2, 22, 23);
  }

  lemma Mersenne29()
    ensures Divides(233, Pow2(29) - 1) && Clean(233, 0, 27)
  {
    hide S, Pow2, Clean;
    Pow2ToThirtyOne();
    DividesBy(233, Pow2(29) - 1, 2304167);
    Orbit233();
    EarlyTerms();
    Periodic(233, 1, 13, 27);
  }

  lemma Mersenne31()
    ensures Divides(2147483647, Pow2(31) - 1) && Clean(2147483647, 0, 29)
  {
    hide S, Pow2, Clean;
    Pow2ToThirtyOne();
    DividesBy(2147483647, Pow2(31) - 1, 1);
    OrbitM31B();
    CleanPart(2147483647, 29, 29);
  }

  lemma Mersenne35()
    ensures Divides(71, Pow2(35) - 1) && Clean(71, 0, 33)
  {
    hide S, Pow2, Clean;
    Pow2ToSixtyOne();
    DividesBy(71, Pow2(35) - 1, 483939977);
    Orbit71();
    Start(71);
    Periodic(71, 0, 3, 33);
  }

  lemma Mersenne37()
    ensures Divides(223, Pow2(37) - 1) && Clean(223, 0, 35)
  {
    hide S, Pow2, Clean;
    Pow2ToSixtyOne();
    DividesBy(223, Pow2(37) - 1, 616318177);
    Orbit223();
    EarlyTerms();
    StepFollowsS(223, 3, 170, 131);
    StepFollowsS(223, 4, 131, 211);
    Periodic(223, 5, 8, 35);
  }

  lemma Mersenne41()
    ensures Divides(13367, Pow2(41) - 1) && Clean(13367, 0, 39)
  {
    hide S, Pow2, Clean;
    Pow2ToSixtyOne();
    DividesBy(13367, Pow2(41) - 1, 164511353);
    Orbit13367B();
    CleanPart(13367, 39, 42);
  }

  lemma Mersenne43()
    ensures Divides(431, Pow2(43) - 1) && Clean(431, 0, 41)
  {
    hide S, Pow2, Clean;
    Pow2ToSixtyOne();
    DividesBy(431, Pow2(43) - 1, 20408568497);
    Orbit431();
    Start(431);
    Periodic(431, 0, 28, 41);
  }

  lemma Mersenne47()
    ensures Divides(2351, Pow2(47) - 1) && Clean(2351, 0, 45)
  {
    hide S, Pow2, Clean;
    Pow2ToSixtyOne();
    DividesBy(2351, Pow2(47) - 1, 59862819377);
    Orbit2351B();
    CleanPart(2351, 45, 49);
  }

  lemma Mersenne49()
    ensures Divides(4432676798593, Pow2(49) - 1) && Clean(4432676798593, 0, 47)
  {
    hide S, Pow2, Clean;
    Pow2ToSixtyOne();
    DividesBy(4432676798593, Pow2(49) - 1, 127);
    Orbit4432676798593B();
    EarlyTerms();
    Periodic(4432676798593, 3, 45, 47);
  }

  lemma Mersenne53()
    ensures Divides(6361, Pow2(53) - 1) && Clean(6361, 0, 51)
  {
    hide S, Pow2, Clean;
    Pow2ToSixtyOne();
    DividesBy(6361, Pow2(53) - 1, 1416003655831);
    Orbit6361B();
    CleanPart(6361, 51, 56);
  }

  lemma Mersenne55()
    ensures Divides(23, Pow2(55) - 1) && Clean(23, 0, 53)
  {
    hide S, Pow2, Clean;
    Mersenne11();
    MersenneDivides(11, 5);
    DividesTrans(23, Pow2(11) - 1, Pow2(55) - 1);
    Orbit23();
    Start(23);
    Periodic(23, 0, 5, 53);
  }

  lemma Mersenne59()
    ensures Divides(179951, Pow2(59) - 1) && Clean(179951, 0, 57)
  {
    hide S, Pow2, Clean;
    Pow2ToSixtyOne();
    DividesBy(179951, Pow2(59) - 1, 3203431780337);
    Orbit179951C();
    CleanPart(179951, 57, 63);
  }

  lemma Mersenne61()
    ensures Divides(2305843009213693951, Pow2(61) - 1) && Clean(2305843009213693951, 0, 59)
  {
    hide S, Pow2, Clean;
    Pow2ToSixtyOne();
    DividesBy(2305843009213693951, Pow2(61) - 1, 1);
    OrbitM61C();
    CleanPart(2305843009213693951, 59, 59);
  }

  lemma {:induction false} ModuloThree(k: nat)
    requires k >= 1
    ensures S(k) % 3 == 2
  {
    if k == 1 {
      EarlyTerms();
    } else {
      ModuloThree(k - 1);
      StepFollowsS(3, k - 1, 2, 2);
    }
  }

  lemma {:induction false} ModuloSeven(k: nat)
    requires k >= 2
    ensures S(k) % 7 == if k == 2 then 5 else 2
  {
    EarlyTerms();
    if k > 3 {
      ModuloSeven(k - 1);
      StepFollowsS(7, k - 1, 2, 2);
    }
  }

  /** A factor of 2^p - 1 modulo which the whole orbit is clean, for the exponents coprime to 6. */
  lemma CleanFactor(p: nat) returns (q: int)
    requires 5 <= p <= 64 && p % 2 != 0 && p % 3 != 0
    ensures q >= 2 && Divides(q, Pow2(p) - 1) && Clean(q, 0, p - 2)
  {
    hide S, Pow2, Clean, Divides;
    if p == 5 {
      Mersenne5();
      q := 31;
    } else if p == 7 {
      Mersenne7();
      q := 127;
    } else if p == 11 {
      Mersenne11();
      q := 23;
    } else if p == 13 {
      Mersenne13();
      q := 8191;
    } else if p == 17 {
      Mersenne17();
      q := 131071;
    } else if p == 19 {
      Mersenne19();
      q := 524287;
    } else if p == 23 {
      Mersenne23();
      q := 47;
    } else if p == 25 {
      Mersenne25();
      q := 601;
    } else if p == 29 {
      Mersenne29();
      q := 233;
    } else if p == 31 {
      Mersenne31();
      q := 2147483647;
    } else if p == 35 {
      Mersenne35();
      q := 71;
    } else if p == 37 {
      Mersenne37();
      q := 223;
    } else if p == 41 {
      Mersenne41();
      q := 13367;
    } else if p == 43 {
      Mersenne43();
      q := 431;
    } else if p == 47 {
      Mersenne47();
      q := 2351;
    } else if p == 49 {
      Mersenne49();
      q := 4432676798593;
    } else if p == 53 {
      Mersenne53();
      q := 6361;
    } else if p == 55 {
      Mersenne55();
      q := 23;
    } else if p == 59 {
      Mersenne59();
      q := 179951;
    } else {
      assert p == 61;
      Mersenne61();
      q := 2305843009213693951;
    }
  }

  /** For 3 <= p <= 64 no residue before the last is 0 or 1: the subtraction of 2 never wraps. */
  lemma NoEarlyWrap(p: nat)
    requires 3 <= p <= 64
    ensures Clean(Pow2(p) - 1, 0, p - 2)
  {
    var m := Pow2(p) - 1;
    assert Pow2(p) == 2 * Pow2(p - 1) == 4 * Pow2(p - 2) == 8 * Pow2(p - 3);
    if p == 3 {
      SmallRemainder(4, m);
    } else if p % 2 == 0 {
      MersenneDivides(2, p / 2);
      assert Pow2(2) == 4;
      forall k | 1 <= k < p - 2 ensures S(k) % 3 != 0 && S(k) % 3 != 1 { ModuloThree(k); }
      CleanUp(3, m, 1, p - 2);
      FirstTerms(p);
    } else if p % 3 == 0 {
      MersenneDivides(3, p / 3);
      assert Pow2(3) == 8;
      forall k | 2 <= k < p - 2 ensures S(k) % 7 != 0 && S(k) % 7 != 1 { ModuloSeven(k); }
      CleanUp(7, m, 2, p - 2);
      FirstTerms(p);
    } else {
      var q := CleanFactor(p);
      CleanUp(q, m, 0, p - 2);
    }
  }

  lemma FirstTerms(p: nat)
    requires p >= 4
    ensures Clean(Pow2(p) - 1, 0, if p >= 5 then 2 else 1)
  {
    var m := Pow2(p) - 1;
    assert Pow2(p) == 2 * Pow2(p - 1) == 4 * Pow2(p - 2) == 8 * Pow2(p - 3) == 16 * Pow2(p - 4);
    EarlyTerms();
    SmallRemainder(4, m);
    if p >= 5 { SmallRemainder(14, m); }
  }
}
