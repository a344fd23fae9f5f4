/** The byte substitutions of the cipher: the tables S and S5 of rijndael.c, sixteen entries to a row. */
module SBoxes {
  // Row `high` of the table S, its first entry in the most significant byte.
  function SubRow(high: bv8): bv128 {
    if high == 0 then 0x637c777bf26b6fc53001672bfed7ab76 else
    if high == 1 then 0xca82c97dfa5947f0add4a2af9ca472c0 else
    if high == 2 then 0xb7fd9326363ff7cc34a5e5f171d83115 else
    if high == 3 then 0x04c723c31896059a071280e2eb27b275 else
    if high == 4 then 0x09832c1a1b6e5aa0523bd6b329e32f84 else
    if high == 5 then 0x53d100ed20fcb15b6acbbe394a4c58cf else
    if high == 6 then 0xd0efaafb434d338545f9027f503c9fa8 else
    if high == 7 then 0x51a3408f929d38f5bcb6da2110fff3d2 else
    if high == 8 then 0xcd0c13ec5f974417c4a77e3d645d1973 else
    if high == 9 then 0x60814fdc222a908846eeb814de5e0bdb else
    if high == 10 then 0xe0323a0a4906245cc2d3ac629195e479 else
    if high == 11 then 0xe7c8376d8dd54ea96c56f4ea657aae08 else
    if high == 12 then 0xba78252e1ca6b4c6e8dd741f4bbd8b8a else
    if high == 13 then 0x703eb5664803f60e613557b986c11d9e else
    if high == 14 then 0xe1f8981169d98e949b1e87e9ce5528df else
    0x8ca1890dbfe6426841992d0fb054bb16
  }

  // Row `high` of the table S5.
  function InvSubRow(high: bv8): bv128 {
    if high == 0 then 0x52096ad53036a538bf40a39e81f3d7fb else
    if high == 1 then 0x7ce339829b2fff87348e4344c4dee9cb else
    if high == 2 then 0x547b9432a6c2233dee4c950b42fac34e else
    if high == 3 then 0x082ea16628d924b2765ba2496d8bd125 else
    if high == 4 then 0x72f8f66486689816d4a45ccc5d65b692 else
    if high == 5 then 0x6c704850fdedb9da5e154657a78d9d84 else
    if high == 6 then 0x90d8ab008cbcd30af7e45805b8b34506 else
    if high == 7 then 0xd02c1e8fca3f0f02c1afbd0301138a6b else
    if high == 8 then 0x3a9111414f67dcea97f2cfcef0b4e673 else
    if high == 9 then 0x96ac7422e7ad3585e2f937e81c75df6e else
    if high == 10 then 0x47f11a711d29c5896fb7620eaa18be1b else
    if high == 11 then 0xfc563e4bc6d279209adbc0fe78cd5af4 else
    if high == 12 then 0x1fdda8338807c731b11210592780ec5f else
    if high == 13 then 0x60517fa919b54a0d2de57a9f93c99cef else
    if high == 14 then 0xa0e03b4dae2af5b0c8ebbb3c83539961 else
    0x172b047eba77d626e169146355210c7d
  }

  function Entry(row: bv128, low: bv8): bv8 {
    ((row >> (8 * (15 - (low & 0x0f)))) & 0xff) as bv8
  }

  // S[x]
  function Sub(x: bv8): bv8 {
    Entry(SubRow(x >> 4), x)
  }

  // S5[x]
  function InvSub(x: bv8): bv8 {
    Entry(InvSubRow(x >> 4), x)
  }

  // quarter by quarter
  lemma InvSubSub0(x: bv8)
    requires x < 0x40
    ensures InvSub(Sub(x)) == x
  {}

  lemma InvSubSub1(x: bv8)
    requires 0x40 <= x < 0x80
    ensures InvSub(Sub(x)) == x
  {}

  lemma InvSubSub2(x: bv8)
    requires 0x80 <= x < 0xc0
    ensures InvSub(Sub(x)) == x
  {}

  lemma InvSubSub3(x: bv8)
    requires 0xc0 <= x
    ensures InvSub(Sub(x)) == x
  {}

  lemma SubInvSub0(x: bv8)
    requires x < 0x40
    ensures Sub(InvSub(x)) == x
  {}

  lemma SubInvSub1(x: bv8)
    requires 0x40 <= x < 0x80
    ensures Sub(InvSub(x)) == x
  {}

  lemma SubInvSub2(x: bv8)
    requires 0x80 <= x < 0xc0
    ensures Sub(InvSub(x)) == x
  {}

  lemma SubInvSub3(x: bv8)
    requires 0xc0 <= x
    ensures Sub(InvSub(x)) == x
  {}

  /** The two tables are inverse permutations of the 256 bytes. */
  lemma SubInverse(x: bv8)
    ensures InvSub(Sub(x)) == x
    ensures Sub(InvSub(x)) == x
  {
    hide Sub, InvSub;
    if x < 0x40 {
      InvSubSub0(x);
      SubInvSub0(x);
    } else if x < 0x80 {
      InvSubSub1(x);
      SubInvSub1(x);
    } else if x < 0xc0 {
      InvSubSub2(x);
      SubInvSub2(x);
    } else {
      InvSubSub3(x);
      SubInvSub3(x);
    }
  }
}
