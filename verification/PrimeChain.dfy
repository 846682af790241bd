/** A chain of primes, each less than twice the one before it, up to 2^32. */
module PrimeChain {
  import opened NumberTheory
  import opened PrimeGaps

  function Chain1(): Chain {
    Above(83, Above(43, Above(23, Above(13, Above(7, Above(5, Above(3, Above(2, Bottom))))))))
  }

  lemma Primes1()
    ensures AllPrime(Chain1()) && Dense(113, Chain1())
  {
    TriedIsPrime(2);
    TriedIsPrime(3);
    TriedIsPrime(5);
    TriedIsPrime(7);
    TriedIsPrime(13);
    TriedIsPrime(23);
    TriedIsPrime(43);
    TriedIsPrime(83);
  }

  function Chain2(): Chain {
    Above(2113, Above(1217, Above(673, Above(353, Above(193, Above(113, Chain1()))))))
  }

  lemma Primes2()
    ensures AllPrime(Chain2()) && Dense(3457, Chain2())
  {
    Primes1();
    TracedIsPrime(113, 40, Then(18, Then(98, End)), 98, 8, Then(112, End), 16);
    TracedIsPrime(193, 64, Then(43, Then(112, End)), 112, 8, Then(192, End), 16);
    TracedIsPrime(353, 294, Then(304, Then(283, End)), 283, 8, Then(311, Then(352, End)), 32);
    TracedIsPrime(673, 118, Then(464, Then(609, End)), 609, 8, Then(58, Then(672, End)), 32);
    TracedIsPrime(1217, 910, Then(540, Then(737, Then(387, End))), 387, 16, Then(78, Then(1216, End)), 64);
    TracedIsPrime(2113, 1036, Then(2005, Then(1099, Then(1278, End))), 1278, 16, Then(2048, Then(2112, End)), 64);
  }

  function Chain3(): Chain {
    Above(12289, Above(6529, Above(3457, Chain2())))
  }

  lemma Primes3()
    ensures AllPrime(Chain3()) && Dense(23297, Chain3())
  {
    Primes2();
    TracedIsPrime(3457, 1130, Then(1267, Then(1241, Then(1716, End))), 1716, 16, Then(2749, Then(3456, End)), 64);
    TracedIsPrime(6529, 2338, Then(1471, Then(2742, Then(3685, End))), 3685, 16, Then(5434, Then(4218, Then(6528,
      End))), 128);
    TracedIsPrime(12289, 12149, Then(7311, Then(5860, Then(4134, End))), 4134, 16, Then(8246, Then(1479, Then(12288,
      End))), 128);
  }

  function Chain4(): Chain {
    Above(87553, Above(46337, Above(23297, Chain3())))
  }

  lemma Primes4()
    ensures AllPrime(Chain4()) && Dense(170497, Chain4())
  {
    Primes3();
    TracedIsPrime(23297, 1378, Then(11827, Then(2741, Then(11447, Then(11481, End)))), 11481, 32, Then(22232,
      Then(15969, Then(23296, End))), 256);
    TracedIsPrime(46337, 28151, Then(23427, Then(8901, Then(37868, Then(40622, End)))), 40622, 32, Then(39977,
      Then(43736, Then(46336, End))), 256);
    TracedIsPrime(87553, 83133, Then(12081, Then(87263, Then(84100, Then(16001, End)))), 16001, 32, Then(27029,
      Then(24609, Then(86333, Then(87552, End)))), 512);
  }

  function Chain5(): Chain {
    Above(658433, Above(331777, Above(170497, Chain4())))
  }

  lemma Primes5()
    ensures AllPrime(Chain5()) && Dense(1312769, Chain5())
  {
    Primes4();
    TracedIsPrime(170497, 26181, Then(46821, Then(126112, Then(105887, Then(3552, End)))), 3552, 32, Then(170423,
      Then(5476, Then(149601, Then(170496, End)))), 512);
    TracedIsPrime(331777, 320527, Then(155463, Then(117027, Then(227723, Then(24298, Then(161521, End))))), 161521,
      64, Then(80823, Then(331753, Then(576, Then(331776, End)))), 1024);
    TracedIsPrime(658433, 408364, Then(489019, Then(8926, Then(3083, Then(286827, Then(499878, End))))), 499878, 64,
      Then(57652, Then(641753, Then(363674, Then(658432, End)))), 1024);
  }

  function Chain6(): Chain {
    Above(5189633, Above(2598913, Above(1312769, Chain5())))
  }

  lemma Primes6()
    ensures AllPrime(Chain6()) && Dense(10362881, Chain6())
  {
    Primes5();
    TracedIsPrime(1312769, 9157, Then(1146202, Then(505443, Then(1215004, Then(1036905, Then(1040335, End))))),
      1040335, 64, Then(263403, Then(1298759, Then(677519, Then(1310207, Then(1312768, End))))), 2048);
    TracedIsPrime(2598913, 2341857, Then(424111, Then(1970504, Then(837670, Then(112378, Then(696617, End))))),
      696617, 64, Then(1011503, Then(848082, Then(1702713, Then(1168654, Then(2598912, End))))), 2048);
    TracedIsPrime(5189633, 730799, Then(2046371, Then(40382, Then(1161162, Then(4588679, Then(4339279, Then(4411261,
      End)))))), 4411261, 128, Then(4455432, Then(3928691, Then(916989, Then(2970397, Then(5189632, End))))), 4096);
  }

  function Chain7(): Chain {
    Above(41132033, Above(20717569, Above(10362881, Chain6())))
  }

  lemma Primes7()
    ensures AllPrime(Chain7()) && Dense(82149377, Chain7())
  {
    Primes6();
    TracedIsPrime(10362881, 5707449, Then(3791533, Then(2354697, Then(660045, Then(3884785, Then(7992877,
      Then(9474634, End)))))), 9474634, 128, Then(4788074, Then(6436391, Then(9689636, Then(7140847, Then(10362880,
      End))))), 4096);
    TracedIsPrime(20717569, 5404540, Then(15040708, Then(12859458, Then(13182388, Then(10185119, Then(10463603,
      Then(1426980, End)))))), 1426980, 128, Then(4216097, Then(6887099, Then(4242785, Then(18898091, Then(19124405,
      Then(20717568, End)))))), 8192);
    TracedIsPrime(41132033, 23616129, Then(15019774, Then(40178616, Then(27178622, Then(22970081, Then(12748289,
      Then(40239571, End)))))), 40239571, 128, Then(7734432, Then(37868249, Then(35488415, Then(40036539,
      Then(38909228, Then(41132032, End)))))), 8192);
  }

  function Chain8(): Chain {
    Above(164282369, Above(82149377, Chain7()))
  }

  lemma Primes8()
    ensures AllPrime(Chain8()) && Dense(328531969, Chain8())
  {
    Primes7();
    TracedIsPrime(82149377, 36039686, Then(14044839, Then(7736636, Then(21825510, Then(30599114, Then(38289796,
      Then(47315396, Then(47122528, End))))))), 47122528, 256, Then(71315559, Then(32873358, Then(27429088,
      Then(67929369, Then(71918366, Then(82149376, End)))))), 16384);
    TracedIsPrime(164282369, 141623696, Then(38239760, Then(71282541, Then(41451868, Then(135315694, Then(3664981,
      Then(30676183, Then(65627423, End))))))), 65627423, 256, Then(145174622, Then(94361708, Then(101721641,
      Then(92741681, Then(30320968, Then(164282368, End)))))), 16384);
  }

  function Chain9(): Chain {
    Above(657063937, Above(328531969, Chain8()))
  }

  lemma Primes9()
    ensures AllPrime(Chain9()) && Dense(1314127873, Chain9())
  {
    Primes8();
    TracedIsPrime(328531969, 264281874, Then(211182659, Then(215746888, Then(179585808, Then(241923940,
      Then(102944223, Then(160478123, Then(164460022, End))))))), 164460022, 256, Then(115773948, Then(97707770,
      Then(130925683, Then(189081232, Then(46043292, Then(138373226, Then(328531968, End))))))), 32768);
    TracedIsPrime(657063937, 394392801, Then(118193541, Then(297581837, Then(616150740, Then(254399136,
      Then(491778442, Then(214486504, Then(64555364, End))))))), 64555364, 256, Then(511010783, Then(243205235,
      Then(452342704, Then(100395446, Then(427211828, Then(20712339, Then(657063936, End))))))), 32768);
  }

  function Chain10(): Chain {
    Above(2626486273, Above(1314127873, Chain9()))
  }

  lemma Primes10()
    ensures AllPrime(Chain10()) && Dense(0x1_0000_0000, Chain10())
  {
    Primes9();
    TracedIsPrime(1314127873, 1062651848, Then(253013757, Then(1227200091, Then(323869209, Then(967223493,
      Then(1174175512, Then(38561443, Then(575211448, Then(897171780, End)))))))), 897171780, 512, Then(797273774,
      Then(1099254717, Then(410753065, Then(570665842, Then(360720046, Then(710755123, Then(1314127872, End))))))),
      65536);
    TracedIsPrime(2626486273, 454674194, Then(2463169401, Then(1833800612, Then(1247618416, Then(1018996366,
      Then(2597589020, Then(1944226027, Then(407124151, Then(618373759, End)))))))), 618373759, 512, Then(990149136,
      Then(1437765883, Then(270987238, Then(1115857810, Then(24478432, Then(187287769, Then(2626486272, End))))))),
      65536);
  }

  /** For all 32-bit numbers: the next prime downwards is more than half as large. */
  lemma ClosestPrimeIsClose(n: nat)
    requires 2 <= n < 0x1_0000_0000
    ensures n < 2 * ClosestPrime(n)
  {
    Primes10();
    ChainIsClose(n, 0x1_0000_0000, Chain10());
  }
}
