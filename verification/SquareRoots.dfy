/** A root of minus one modulo the field's prime: 125 squarings, each checked on its own. */
module SquareRoots {
  import opened Values

  /** 3 to the power (PRIME - 1) / 2^126. */
  const GENERATOR: nat := 0x58fb800a320eca270b7ee88d5142cff73b4f714487e93c98fd405b2c520e3ea

  function Squarings(x: nat, k: nat): nat {
    if k == 0 then x else Squared(Squarings(x, k - 1))
  }

  /** The square, modulo the prime. */
  function Squared(x: nat): nat {
    x * x % 0x800000000000011000000000000000000000000000000000000000000000001
  }

  /** What `k` squarings make of the generator. */
  predicate Reached(k: nat, x: nat) { Squarings(GENERATOR, k) == x }

  /** One after the other, `a` to `f` are the squares. */
  predicate Squares(a: nat, b: nat, c: nat, d: nat, e: nat, f: nat) {
    Squared(a) == b && Squared(b) == c && Squared(c) == d && Squared(d) == e && Squared(e) == f
  }

  lemma {:induction false} Five(k: nat, a: nat, b: nat, c: nat, d: nat, e: nat, f: nat)
    requires Reached(k, a) && Squares(a, b, c, d, e, f)
    ensures Reached(k + 5, f)
  {
    hide Squared;
    var g := GENERATOR;
    assert Squarings(g, k + 1) == b;
    assert Squarings(g, k + 2) == c;
    assert Squarings(g, k + 3) == d;
    assert Squarings(g, k + 4) == e;
  }

  lemma AtFirst()
    ensures Reached(0, 0x58fb800a320eca270b7ee88d5142cff73b4f714487e93c98fd405b2c520e3ea)
  {
  }

  lemma Started()
    ensures Reached(5, 0x2173582bc7171c7782f8b8e9f2008c937c1e6e10b6a1216c80848fd48e9b00)
  {
    hide Reached;
    AtFirst();
    Five(0,
         0x58fb800a320eca270b7ee88d5142cff73b4f714487e93c98fd405b2c520e3ea,
         0x367a3c7073c48b4893b09160b21ca7e6190d3f60fef654e07eda692e4b19319,
         0x419cb7f7f7738114c64d050d7d21267f191fd60374be67a1da52b0aba4060a,
         0x63039de3f8123775b2fa771cfe9651528fd23fd2a9c6282270aa33a3b50645a,
         0x46de7bc8594b9246c646fe83be009f94ebe5506682ee17cba523265324228d8,
         0x2173582bc7171c7782f8b8e9f2008c937c1e6e10b6a1216c80848fd48e9b00);
  }

  lemma FirstSquares()
    requires Reached(5, 0x2173582bc7171c7782f8b8e9f2008c937c1e6e10b6a1216c80848fd48e9b00)
    ensures Reached(25, 0xc962b1e5dd28e0e9aa6d504f6267c727cea5605ee6eb03af24ead266d7eb25)
  {
    hide Reached;
    Five(5,
         0x2173582bc7171c7782f8b8e9f2008c937c1e6e10b6a1216c80848fd48e9b00,
         0x4b4757de1261bff7bd468872e4228034dcf39325d4233b0de558d1613ee028c,
         0x33b74dd5c6620aaf28c83c99c0eea09b1cab3419049fd2d9604491931d9587e,
         0x7986feaa4074faf4163a40136f0f7914c11ef2660e0b0c87b48a33beb0faad4,
         0x886d2382e8fa75bbc12961947a00fdd7322ee9d24690f489b394f74decc603,
         0x16b03c927c81bdd10d4a8d04f0bb72739d57dd675cfaa7ee42676b09583f023);
    Five(10,
         0x16b03c927c81bdd10d4a8d04f0bb72739d57dd675cfaa7ee42676b09583f023,
         0x8cd288bed4677427e6570a0f7e3e6be380dee704eac3cfd35f3e32a95e3cbf,
         0x53b143cb298587d09716ad9d2c2590d2e4aea228cfd772f3a6299bd21bd655a,
         0x4d12da8f698dd8f2c55534386839de74f0f9dc426fc2d5cc4dc0d201fda880f,
         0x42c8871ea85f2ecbcba6ac1bdb3834a4e2e298fa484586841d351cd9065f8ee,
         0x4159becba288c0bef00dfa97c13e14560e6c3629ed293403cde2cdda828431e);
    Five(15,
         0x4159becba288c0bef00dfa97c13e14560e6c3629ed293403cde2cdda828431e,
         0xa8a188329f6855437c2fda73696a28da7456d290b17b01dcadfd2955205413,
         0x25a425bcac574963eb8c3a0e4df06d84a959d5003821aa870b8043288740c3e,
         0x74ffc4d220fc7db571dbdb926e5d4354cf688cf5ac103a0cbadd8ada5c0dca4,
         0x5d92ab7822107546e6eef0404badff62ca03fcb86946633c3eebe54443af109,
         0x50c8e5c3e50dfed7db961b024a4096ed5930255d99f7159962ceb6b1a264ab3);
    Five(20,
         0x50c8e5c3e50dfed7db961b024a4096ed5930255d99f7159962ceb6b1a264ab3,
         0x6bd0cde316cc0d39a112816deb0740d4f17674dc55f4455b2b074aeb3b67067,
         0x7913b17c60939127aa46ad086b82de771329f695f3fb72adb150649bea42f88,
         0x4bef156ed7788c133e089caa12773f25a2e6ea2c78f7dac1fbc42a3358cfcc2,
         0x10d235f41cf0a6b5d0e7af09fbda5e344370686cf0e1b883c3407a5b11706c9,
         0xc962b1e5dd28e0e9aa6d504f6267c727cea5605ee6eb03af24ead266d7eb25);
  }

  lemma SecondSquares()
    requires Reached(25, 0xc962b1e5dd28e0e9aa6d504f6267c727cea5605ee6eb03af24ead266d7eb25)
    ensures Reached(50, 0x69d8f0ce28baf8aeeedaa59b8183a1dc5daaff481ebc11719cd1b4e1824b92c)
  {
    hide Reached;
    Five(25,
         0xc962b1e5dd28e0e9aa6d504f6267c727cea5605ee6eb03af24ead266d7eb25,
         0x36026557e531b52198de3470c8661cb0c37dca27bbe087de1462ca639759f39,
         0x5f950ad12450edbc0746a1dcb004b32cdd8f78093a5a7ffebd2a8b6be27786,
         0x6680f09add19a7d439bdda4e080e2ec6831da1df132ce21a848b2f255e39071,
         0x4c3a3a1cf78c5796af2b76d08451e3595490ca02a0fb7bd00e13c8e5e7c57a2,
         0x19fa1f95266715130d97769c946ab30040470c480339f392810d2b47dac5d19);
    Five(30,
         0x19fa1f95266715130d97769c946ab30040470c480339f392810d2b47dac5d19,
         0x7a8faa16660a91230b003fd0c597ea738ec0386049c46e27f5c626d87086e50,
         0x240fc41f63c32ab8b51336fa9bed4f51540cf671c841a894ef9fe941c5a4861,
         0xf1a46e52e5da6d359ddb459767a44a7a969b6235d2dfb668886b35b2bfa1ad,
         0x5e88acbfdd73a36a2bd1d0671a0cdd222c99c9f5eac45882413e92cd772d637,
         0x1775d669ad23eac9491173a78d7b607a258cfc7dbe5763de43439f14fa405aa);
    Five(35,
         0x1775d669ad23eac9491173a78d7b607a258cfc7dbe5763de43439f14fa405aa,
         0x6159e4a939b3ef32d89a7778091a28733cd57255d940684ea8cbefdd455f483,
         0x156d837457eabd3354e3bf711c1d565d4f52ed24664959b7f2e2048c608d246,
         0x3761a4f5990b523acda84182a069b18d04f1eebbfee24ac4c69edd957269216,
         0x5b8acbcc282db6f4cc157b472328369db5a705f9fc63b7f6ace9477f4910a60,
         0x57e48762d9291a47df85fbbf428c4b94b92533d961f56adec982f608770a4be);
    Five(40,
         0x57e48762d9291a47df85fbbf428c4b94b92533d961f56adec982f608770a4be,
         0x3b22830dbefe5e902102b55e7eed224d777abd5009b84dc384c5e8b91b88258,
         0x31261d0ab40d7e4700766e17117c44a37c4a361aa690d1f82d06d783a41158a,
         0x4b0b60385306d47ef09e227bc3ff5f7046910d3bcf85c7ec7cfc1f10bdb6cc,
         0x6917cab04838ba13f6903d77d71ca2f64c25a072f53041307a4b921312f9080,
         0x161444d63a080a007f123592544381e0ab73eefc55b1b6829617bad5b7be972);
    Five(45,
         0x161444d63a080a007f123592544381e0ab73eefc55b1b6829617bad5b7be972,
         0x6263e1e108eec6a19935b68cc9d9b24d43bcf85471f947e12680395c2ba0f23,
         0x1c5ef1268c997228b8d87357b0de8803cac8839573b44d78cc1d845a86eec0c,
         0x5dd79b04d0a367d234d8639dbea4a69bfddf5c559086db15e3197fcb79a92b1,
         0x2259fe4059cb5f59e4dbd250edf7ead7e0dbb9f1b9f4119733e8df9dc50729,
         0x69d8f0ce28baf8aeeedaa59b8183a1dc5daaff481ebc11719cd1b4e1824b92c);
  }

  lemma ThirdSquares()
    requires Reached(50, 0x69d8f0ce28baf8aeeedaa59b8183a1dc5daaff481ebc11719cd1b4e1824b92c)
    ensures Reached(75, 0x59655bca59fd24212862a438a9a38b55582a9ff67455b5dc0cc855634db29f8)
  {
    hide Reached;
    Five(50,
         0x69d8f0ce28baf8aeeedaa59b8183a1dc5daaff481ebc11719cd1b4e1824b92c,
         0x4f42d7f5d57bb23c1e326b312abaef5d0c3e0c67853b30dae703c5bcd9fedee,
         0x3d296b9c387a3b5103ec3c817343c48cacd65df92a880891fb24e5e23088fc7,
         0x7acdde969bc866a8f4c1366fd6391750021a55ba96aeeab8ec7e11316334e1a,
         0x712858b12d620d861aab25e0d732fdbd3616cb157a1cdecb9d70015f246c901,
         0x30762f8111f4192b174ad4623d95951709ca6c60430b01766d1942030408cb9);
    Five(55,
         0x30762f8111f4192b174ad4623d95951709ca6c60430b01766d1942030408cb9,
         0xb974a1f64289f793bae6507c287f58011853d8318277e80c4e7c07f966d24e,
         0x160e9529f3d7f85113b6071bb65576e6539ee52f5d787d2ef78ac4c062bd860,
         0x13336c10fc8b5226f8987e37b429f7100f4a1285fd9edca448fff073e257b43,
         0x20a1b2f11cbcf62e9ab5d6ff94d9fcd408ae7db08ddfa23909aad7cc7bf8c3,
         0x3c53bf5826df846ce51a153d0b370a19a58fd99771da991a1826724ed992efc);
    Five(60,
         0x3c53bf5826df846ce51a153d0b370a19a58fd99771da991a1826724ed992efc,
         0x15f291ac9c0fea66ef2c68c44140d6ebf152353b9fa9dcc0256d8e606051d55,
         0x114a27896d1fe4c5be965ba8dd54dbe7d3eef8ba72b1f03b0a6628d72fb8b0d,
         0x592823dba66ff376dcfc3f204e3af6bdfdcae7a37e8a00691874856827caf53,
         0x3b9eb75bbfb94911160b441d34b0aa6084214302c65c94e8a0b9d028229376d,
         0x3d70de4258c2f230bfa523a6e93f6f39a76a3127fa7c6c40175aa1c8a08756f);
    Five(65,
         0x3d70de4258c2f230bfa523a6e93f6f39a76a3127fa7c6c40175aa1c8a08756f,
         0x759502052fe197918729111f59deccccb704d0fd6fc96251d2b75385f65c188,
         0x71dd923ea63598d8a3a08baba82a050a566e7556861e2ce7f405a9f641826ac,
         0x395e7fc89f15c6fa8d469d88a1c381707403ad4e3681a159e0392a5120edfab,
         0xf9ea29c819531b85b1f9bd5d1e2f0e82bc79b987969b48275e6b02f8133966,
         0x147819bc9a18a1cfd1de1f92c5db3a45327d617477d39beefa724771cc4133c);
    Five(70,
         0x147819bc9a18a1cfd1de1f92c5db3a45327d617477d39beefa724771cc4133c,
         0x36dd150a43bc89878c40b06cad54cf279d6de4827a1bbb138b8dc2ab6a791f1,
         0x7ec89264e3003f84f4471d7dfbc1d9736feeeead45eb3f52755d6c2850fb317,
         0xc447edf93f2b505849ed84ad9302ddbb866a23200d367a2922d09e97bf51c,
         0x593fcefc33590efc565794d54acb87c99f4d1a0c71ccc0d39bc513194ceaf98,
         0x59655bca59fd24212862a438a9a38b55582a9ff67455b5dc0cc855634db29f8);
  }

  lemma FourthSquares()
    requires Reached(75, 0x59655bca59fd24212862a438a9a38b55582a9ff67455b5dc0cc855634db29f8)
    ensures Reached(100, 0x3d8d2c79e51225ca679e36b4795d34603148f22aa2da68432609f1d4586dbc3)
  {
    hide Reached;
    Five(75,
         0x59655bca59fd24212862a438a9a38b55582a9ff67455b5dc0cc855634db29f8,
         0x20895f803549e6077772f7c9ed55af88013dd5e588c8a511527727196934000,
         0x28d98a5c724e0c5cb05b3daaa13ffe5d4f3510d99cdc2e0be23b78ff11422a0,
         0x30a2e815081f7d927f73df497923b55d38dbf3801c203cee2bf6c4b68bc148c,
         0x9214cedbd56ba72ee2fccfb26a3811adfa956c86781a31852ba56e0643771f,
         0x7f3796f1055c25d713383d44e17ff38978f978534d1905d374012a6cc60fb85);
    Five(80,
         0x7f3796f1055c25d713383d44e17ff38978f978534d1905d374012a6cc60fb85,
         0x5f5cf394a0503588a81d1376b06db5cbcc17ccd153c3d28462b41fadd5ca525,
         0x41ed5ed684fdb65a4b4eb09a3db81cdcd942bbdbb11fb86b640956fc3111bcb,
         0x2c4d3fae555c739dbb200719df95366fadfc0509c9f7f04ad7108d3e6fcfdb2,
         0x39ccdaa2f14e2f1e4f1f15bad75d32a5a48d46994be15ba38eaa186140e5623,
         0x276097355446d35226f0a071a545f8b2319450aba5762ab5a896ef3b3bd8b7e);
    Five(85,
         0x276097355446d35226f0a071a545f8b2319450aba5762ab5a896ef3b3bd8b7e,
         0x66d3f613676644e7fd3b59b4d1be159d5c3359362a1db767d13e948f39cd3e8,
         0x2b73cad6474b8f04f696cbaaceeb7f746aba1bcc7505f356966804cd990d491,
         0x772cb7af261b6de31150ac13481c4fe3fef7c1b224402352693b83400637050,
         0x100fff97b116fb92aa7ae1b21254c395c2006273fab8962051093f0622478c4,
         0x685db923d7f5ae64f24ab196896a559860d442c8aea6ff765a19cf408a616fc);
    Five(90,
         0x685db923d7f5ae64f24ab196896a559860d442c8aea6ff765a19cf408a616fc,
         0x2399005571ddc34f58069e2cf93b2e59dca12d8ec14ba21081c31665dd8c4c3,
         0x7badc4b5d4ec2923c49a6302109fd561feb39d77d671a9d3ccd9d2b76b0a92e,
         0x166c8e216a6e39cbd6ae1606340df6f95e231acd72200159aae0db32216f1c8,
         0x50732ed0be8ced2fea566de48221e1a719252eb81c43de5c129d0f1d3ce8992,
         0x60ac0c4573f0c286fec2239a9565d986a788149b9b9f2c98265b62b5de74517);
    Five(95,
         0x60ac0c4573f0c286fec2239a9565d986a788149b9b9f2c98265b62b5de74517,
         0x22bde4080fb4ceae566a8e1c04b00b774a6431091af248d209745aaf81f58b4,
         0x5e7decaf2b876575397e8e2f1ee840cae9c3f9a3a96c59ef42231bbb030713c,
         0x57a797181c06d8427145cb66056f032751615d8617c5468258e96d2bb6422f9,
         0x1f05206a93b28f3ce0bc0d9fee282e4102e16b264c12e72eac5be9eea5f81cf,
         0x3d8d2c79e51225ca679e36b4795d34603148f22aa2da68432609f1d4586dbc3);
  }

  lemma FifthSquares()
    requires Reached(100, 0x3d8d2c79e51225ca679e36b4795d34603148f22aa2da68432609f1d4586dbc3)
    ensures Reached(125, 0x800000000000011000000000000000000000000000000000000000000000000)
  {
    hide Reached;
    Five(100,
         0x3d8d2c79e51225ca679e36b4795d34603148f22aa2da68432609f1d4586dbc3,
         0x6e8e7695c437763ce9a0d37f5fa46656e3398e68ef9a25ab86b03a44ca88ffc,
         0x71a47b8174a8e80e643d3ead664f4da1ad6f3beddc0f211f6b1348877156db2,
         0x1054544afb3df1a81cb2e43cd0be360d7c9c0a1b32a3b2301af11c3b40bdbe8,
         0x3e4383531eeac7c9822fb108d24a344d841544dd6482f17ead331453e3a2f4b,
         0x1f4c2bfbeea04f127e46d76ecbf157b030530a6e7c1b2fd006547440e5ffcb8);
    Five(105,
         0x1f4c2bfbeea04f127e46d76ecbf157b030530a6e7c1b2fd006547440e5ffcb8,
         0x594beafca8a00d9581d81caee93dc85c727c9af7fc4c648e3d47b998574e81f,
         0x2d25658f71614e33e277fa0223f6558858f5918f973dc221727fce0bffaa9db,
         0x4768803ef85256034f67453635f87997ff61841e411ee63ce7b0a8b9745a046,
         0x6a6f98dc9761a8a0eeadedd3109e6119ec8116ceb7aa1c1a7b1f98c2755bfac,
         0x1eb6d849978ee09b9d2cd854901fab81646d633f51eddbc80ee9837309d9da9);
    Five(110,
         0x1eb6d849978ee09b9d2cd854901fab81646d633f51eddbc80ee9837309d9da9,
         0x34b5d5d611b72061c3a6e5c8bdbd9b393898bc862ef8a01e3efc75d13a77460,
         0x393a32b34832dbad650df250f673d7c5edd09f076fc314a3e5a42f0606082e1,
         0x363d70a6538624f68c341845689b2325c4564ebadf9bf788171e1da3112b02d,
         0x3d14df6ec477cfc061f4256749ae3ddb5375bc91ee171f9273dbbc7afd187f,
         0x10f4d91b5d9a6deed5ebbf4a3492c1ed439f57211b54c6c453916920fa30710);
    Five(115,
         0x10f4d91b5d9a6deed5ebbf4a3492c1ed439f57211b54c6c453916920fa30710,
         0x659d83946a03edd72406af6711825f5653d9e35dc125289a206c054ec89c4f1,
         0x11d07d97880b4dc0234b46e6d4b9bd4a1f811a9e3bc8e32cc4074a0c13a1d0b,
         0xc92ecbfd121b58bc7924d5dd51a717c4d78992d0e87cd59f1bc8d7ff0cb347,
         0xfcad19556f9b8587781ce1b03a097efa6682256f9ddbcfdab65dbdd4af20f,
         0x128f0fee82b2bb55e869a0710826800d09bd064f9e225ecd6871506b2703765);
    Five(120,
         0x128f0fee82b2bb55e869a0710826800d09bd064f9e225ecd6871506b2703765,
         0x789ad459ecd5c85fcdca219ce6246af26da375d1a8e79812225638f9b48a8ab,
         0x5ec467b88826aba4537602d514425f3b0bdf467bbf302458337c45f6021e539,
         0x63365fe0de874d9c90adb1e2f9c676e98c62155e4412e873ada5e1dee6feebb,
         0x625023929a2995b533120664329f8c7c5268e56ac8320da2a616626f41337e3,
         0x800000000000011000000000000000000000000000000000000000000000000);
  }

  lemma HalfwayRound()
    ensures Squarings(GENERATOR, 125) == PRIME - 1
  {
    Started();
    FirstSquares();
    SecondSquares();
    ThirdSquares();
    FourthSquares();
    FifthSquares();
  }
}
