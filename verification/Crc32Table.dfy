/** CRC-32: the table of `gxcrc32.cpp`, one row of sixteen entries a function,
    against the reflected polynomial 0xEDB88320. */
module Crc32Table {

  type Word = bv32

  /** One step of the division by the polynomial, lowest bit first. */
  function Step(x: Word): Word {
    if x & 1 != 0 then (x >> 1) ^ 0xEDB88320 else x >> 1
  }

  function Eight(x: Word): Word {
    Step(Step(Step(Step(Step(Step(Step(Step(x))))))))
  }

  function Row0(i: Word): Word {
    if i == 0 then 0x00000000 else if i == 1 then 0x77073096 else if i == 2 then 0xEE0E612C
    else if i == 3 then 0x990951BA else if i == 4 then 0x076DC419 else if i == 5 then 0x706AF48F
    else if i == 6 then 0xE963A535 else if i == 7 then 0x9E6495A3 else if i == 8 then 0x0EDB8832
    else if i == 9 then 0x79DCB8A4 else if i == 10 then 0xE0D5E91E else if i == 11 then 0x97D2D988
    else if i == 12 then 0x09B64C2B else if i == 13 then 0x7EB17CBD else if i == 14 then 0xE7B82D07
    else 0x90BF1D91
  }

  function Row1(i: Word): Word {
    if i == 0 then 0x1DB71064 else if i == 1 then 0x6AB020F2 else if i == 2 then 0xF3B97148
    else if i == 3 then 0x84BE41DE else if i == 4 then 0x1ADAD47D else if i == 5 then 0x6DDDE4EB
    else if i == 6 then 0xF4D4B551 else if i == 7 then 0x83D385C7 else if i == 8 then 0x136C9856
    else if i == 9 then 0x646BA8C0 else if i == 10 then 0xFD62F97A else if i == 11 then 0x8A65C9EC
    else if i == 12 then 0x14015C4F else if i == 13 then 0x63066CD9 else if i == 14 then 0xFA0F3D63
    else 0x8D080DF5
  }

  function Row2(i: Word): Word {
    if i == 0 then 0x3B6E20C8 else if i == 1 then 0x4C69105E else if i == 2 then 0xD56041E4
    else if i == 3 then 0xA2677172 else if i == 4 then 0x3C03E4D1 else if i == 5 then 0x4B04D447
    else if i == 6 then 0xD20D85FD else if i == 7 then 0xA50AB56B else if i == 8 then 0x35B5A8FA
    else if i == 9 then 0x42B2986C else if i == 10 then 0xDBBBC9D6 else if i == 11 then 0xACBCF940
    else if i == 12 then 0x32D86CE3 else if i == 13 then 0x45DF5C75 else if i == 14 then 0xDCD60DCF
    else 0xABD13D59
  }

  function Row3(i: Word): Word {
    if i == 0 then 0x26D930AC else if i == 1 then 0x51DE003A else if i == 2 then 0xC8D75180
    else if i == 3 then 0xBFD06116 else if i == 4 then 0x21B4F4B5 else if i == 5 then 0x56B3C423
    else if i == 6 then 0xCFBA9599 else if i == 7 then 0xB8BDA50F else if i == 8 then 0x2802B89E
    else if i == 9 then 0x5F058808 else if i == 10 then 0xC60CD9B2 else if i == 11 then 0xB10BE924
    else if i == 12 then 0x2F6F7C87 else if i == 13 then 0x58684C11 else if i == 14 then 0xC1611DAB
    else 0xB6662D3D
  }

  function Row4(i: Word): Word {
    if i == 0 then 0x76DC4190 else if i == 1 then 0x01DB7106 else if i == 2 then 0x98D220BC
    else if i == 3 then 0xEFD5102A else if i == 4 then 0x71B18589 else if i == 5 then 0x06B6B51F
    else if i == 6 then 0x9FBFE4A5 else if i == 7 then 0xE8B8D433 else if i == 8 then 0x7807C9A2
    else if i == 9 then 0x0F00F934 else if i == 10 then 0x9609A88E else if i == 11 then 0xE10E9818
    else if i == 12 then 0x7F6A0DBB else if i == 13 then 0x086D3D2D else if i == 14 then 0x91646C97
    else 0xE6635C01
  }

  function Row5(i: Word): Word {
    if i == 0 then 0x6B6B51F4 else if i == 1 then 0x1C6C6162 else if i == 2 then 0x856530D8
    else if i == 3 then 0xF262004E else if i == 4 then 0x6C0695ED else if i == 5 then 0x1B01A57B
    else if i == 6 then 0x8208F4C1 else if i == 7 then 0xF50FC457 else if i == 8 then 0x65B0D9C6
    else if i == 9 then 0x12B7E950 else if i == 10 then 0x8BBEB8EA else if i == 11 then 0xFCB9887C
    else if i == 12 then 0x62DD1DDF else if i == 13 then 0x15DA2D49 else if i == 14 then 0x8CD37CF3
    else 0xFBD44C65
  }

  function Row6(i: Word): Word {
    if i == 0 then 0x4DB26158 else if i == 1 then 0x3AB551CE else if i == 2 then 0xA3BC0074
    else if i == 3 then 0xD4BB30E2 else if i == 4 then 0x4ADFA541 else if i == 5 then 0x3DD895D7
    else if i == 6 then 0xA4D1C46D else if i == 7 then 0xD3D6F4FB else if i == 8 then 0x4369E96A
    else if i == 9 then 0x346ED9FC else if i == 10 then 0xAD678846 else if i == 11 then 0xDA60B8D0
    else if i == 12 then 0x44042D73 else if i == 13 then 0x33031DE5 else if i == 14 then 0xAA0A4C5F
    else 0xDD0D7CC9
  }

  function Row7(i: Word): Word {
    if i == 0 then 0x5005713C else if i == 1 then 0x270241AA else if i == 2 then 0xBE0B1010
    else if i == 3 then 0xC90C2086 else if i == 4 then 0x5768B525 else if i == 5 then 0x206F85B3
    else if i == 6 then 0xB966D409 else if i == 7 then 0xCE61E49F else if i == 8 then 0x5EDEF90E
    else if i == 9 then 0x29D9C998 else if i == 10 then 0xB0D09822 else if i == 11 then 0xC7D7A8B4
    else if i == 12 then 0x59B33D17 else if i == 13 then 0x2EB40D81 else if i == 14 then 0xB7BD5C3B
    else 0xC0BA6CAD
  }

  function Row8(i: Word): Word {
    if i == 0 then 0xEDB88320 else if i == 1 then 0x9ABFB3B6 else if i == 2 then 0x03B6E20C
    else if i == 3 then 0x74B1D29A else if i == 4 then 0xEAD54739 else if i == 5 then 0x9DD277AF
    else if i == 6 then 0x04DB2615 else if i == 7 then 0x73DC1683 else if i == 8 then 0xE3630B12
    else if i == 9 then 0x94643B84 else if i == 10 then 0x0D6D6A3E else if i == 11 then 0x7A6A5AA8
    else if i == 12 then 0xE40ECF0B else if i == 13 then 0x9309FF9D else if i == 14 then 0x0A00AE27
    else 0x7D079EB1
  }

  function Row9(i: Word): Word {
    if i == 0 then 0xF00F9344 else if i == 1 then 0x8708A3D2 else if i == 2 then 0x1E01F268
    else if i == 3 then 0x6906C2FE else if i == 4 then 0xF762575D else if i == 5 then 0x806567CB
    else if i == 6 then 0x196C3671 else if i == 7 then 0x6E6B06E7 else if i == 8 then 0xFED41B76
    else if i == 9 then 0x89D32BE0 else if i == 10 then 0x10DA7A5A else if i == 11 then 0x67DD4ACC
    else if i == 12 then 0xF9B9DF6F else if i == 13 then 0x8EBEEFF9 else if i == 14 then 0x17B7BE43
    else 0x60B08ED5
  }

  function RowA(i: Word): Word {
    if i == 0 then 0xD6D6A3E8 else if i == 1 then 0xA1D1937E else if i == 2 then 0x38D8C2C4
    else if i == 3 then 0x4FDFF252 else if i == 4 then 0xD1BB67F1 else if i == 5 then 0xA6BC5767
    else if i == 6 then 0x3FB506DD else if i == 7 then 0x48B2364B else if i == 8 then 0xD80D2BDA
    else if i == 9 then 0xAF0A1B4C else if i == 10 then 0x36034AF6 else if i == 11 then 0x41047A60
    else if i == 12 then 0xDF60EFC3 else if i == 13 then 0xA867DF55 else if i == 14 then 0x316E8EEF
    else 0x4669BE79
  }

  function RowB(i: Word): Word {
    if i == 0 then 0xCB61B38C else if i == 1 then 0xBC66831A else if i == 2 then 0x256FD2A0
    else if i == 3 then 0x5268E236 else if i == 4 then 0xCC0C7795 else if i == 5 then 0xBB0B4703
    else if i == 6 then 0x220216B9 else if i == 7 then 0x5505262F else if i == 8 then 0xC5BA3BBE
    else if i == 9 then 0xB2BD0B28 else if i == 10 then 0x2BB45A92 else if i == 11 then 0x5CB36A04
    else if i == 12 then 0xC2D7FFA7 else if i == 13 then 0xB5D0CF31 else if i == 14 then 0x2CD99E8B
    else 0x5BDEAE1D
  }

  function RowC(i: Word): Word {
    if i == 0 then 0x9B64C2B0 else if i == 1 then 0xEC63F226 else if i == 2 then 0x756AA39C
    else if i == 3 then 0x026D930A else if i == 4 then 0x9C0906A9 else if i == 5 then 0xEB0E363F
    else if i == 6 then 0x72076785 else if i == 7 then 0x05005713 else if i == 8 then 0x95BF4A82
    else if i == 9 then 0xE2B87A14 else if i == 10 then 0x7BB12BAE else if i == 11 then 0x0CB61B38
    else if i == 12 then 0x92D28E9B else if i == 13 then 0xE5D5BE0D else if i == 14 then 0x7CDCEFB7
    else 0x0BDBDF21
  }

  function RowD(i: Word): Word {
    if i == 0 then 0x86D3D2D4 else if i == 1 then 0xF1D4E242 else if i == 2 then 0x68DDB3F8
    else if i == 3 then 0x1FDA836E else if i == 4 then 0x81BE16CD else if i == 5 then 0xF6B9265B
    else if i == 6 then 0x6FB077E1 else if i == 7 then 0x18B74777 else if i == 8 then 0x88085AE6
    else if i == 9 then 0xFF0F6A70 else if i == 10 then 0x66063BCA else if i == 11 then 0x11010B5C
    else if i == 12 then 0x8F659EFF else if i == 13 then 0xF862AE69 else if i == 14 then 0x616BFFD3
    else 0x166CCF45
  }

  function RowE(i: Word): Word {
    if i == 0 then 0xA00AE278 else if i == 1 then 0xD70DD2EE else if i == 2 then 0x4E048354
    else if i == 3 then 0x3903B3C2 else if i == 4 then 0xA7672661 else if i == 5 then 0xD06016F7
    else if i == 6 then 0x4969474D else if i == 7 then 0x3E6E77DB else if i == 8 then 0xAED16A4A
    else if i == 9 then 0xD9D65ADC else if i == 10 then 0x40DF0B66 else if i == 11 then 0x37D83BF0
    else if i == 12 then 0xA9BCAE53 else if i == 13 then 0xDEBB9EC5 else if i == 14 then 0x47B2CF7F
    else 0x30B5FFE9
  }

  function RowF(i: Word): Word {
    if i == 0 then 0xBDBDF21C else if i == 1 then 0xCABAC28A else if i == 2 then 0x53B39330
    else if i == 3 then 0x24B4A3A6 else if i == 4 then 0xBAD03605 else if i == 5 then 0xCDD70693
    else if i == 6 then 0x54DE5729 else if i == 7 then 0x23D967BF else if i == 8 then 0xB3667A2E
    else if i == 9 then 0xC4614AB8 else if i == 10 then 0x5D681B02 else if i == 11 then 0x2A6F2B94
    else if i == 12 then 0xB40BBE37 else if i == 13 then 0xC30C8EA1 else if i == 14 then 0x5A05DF1B
    else 0x2D02EF8D
  }

  /** `CRC_TABLE[i]` */
  function Table(i: Word): Word
    requires i < 256
  {
    var row, column := i >> 4, i & 15;
    if row == 0 then Row0(column)
    else if row == 1 then Row1(column)
    else if row == 2 then Row2(column)
    else if row == 3 then Row3(column)
    else if row == 4 then Row4(column)
    else if row == 5 then Row5(column)
    else if row == 6 then Row6(column)
    else if row == 7 then Row7(column)
    else if row == 8 then Row8(column)
    else if row == 9 then Row9(column)
    else if row == 10 then RowA(column)
    else if row == 11 then RowB(column)
    else if row == 12 then RowC(column)
    else if row == 13 then RowD(column)
    else if row == 14 then RowE(column)
    else RowF(column)
  }

  lemma Row0Ok(i: Word)
    requires i < 16
    ensures Row0(i) == Eight(0x00 | i)
  {
  }

  lemma Row1Ok(i: Word)
    requires i < 16
    ensures Row1(i) == Eight(0x10 | i)
  {
  }

  lemma Row2Ok(i: Word)
    requires i < 16
    ensures Row2(i) == Eight(0x20 | i)
  {
  }

  lemma Row3Ok(i: Word)
    requires i < 16
    ensures Row3(i) == Eight(0x30 | i)
  {
  }

  lemma Row4Ok(i: Word)
    requires i < 16
    ensures Row4(i) == Eight(0x40 | i)
  {
  }

  lemma Row5Ok(i: Word)
    requires i < 16
    ensures Row5(i) == Eight(0x50 | i)
  {
  }

  lemma Row6Ok(i: Word)
    requires i < 16
    ensures Row6(i) == Eight(0x60 | i)
  {
  }

  lemma Row7Ok(i: Word)
    requires i < 16
    ensures Row7(i) == Eight(0x70 | i)
  {
  }

  lemma Row8Ok(i: Word)
    requires i < 16
    ensures Row8(i) == Eight(0x80 | i)
  {
  }

  lemma Row9Ok(i: Word)
    requires i < 16
    ensures Row9(i) == Eight(0x90 | i)
  {
  }

  lemma RowAOk(i: Word)
    requires i < 16
    ensures RowA(i) == Eight(0xA0 | i)
  {
  }

  lemma RowBOk(i: Word)
    requires i < 16
    ensures RowB(i) == Eight(0xB0 | i)
  {
  }

  lemma RowCOk(i: Word)
    requires i < 16
    ensures RowC(i) == Eight(0xC0 | i)
  {
  }

  lemma RowDOk(i: Word)
    requires i < 16
    ensures RowD(i) == Eight(0xD0 | i)
  {
  }

  lemma RowEOk(i: Word)
    requires i < 16
    ensures RowE(i) == Eight(0xE0 | i)
  {
  }

  lemma RowFOk(i: Word)
    requires i < 16
    ensures RowF(i) == Eight(0xF0 | i)
  {
  }

  /** Every entry is eight steps of the polynomial. */
  lemma TableIsEightSteps(i: Word)
    requires i < 256
    ensures Table(i) == Eight(i)
  {
    hide Row0, Row1, Row2, Row3, Row4, Row5, Row6, Row7, Row8, Row9, RowA, RowB, RowC, RowD, RowE, RowF, Eight;
    var row, column := Split(i);
    if row == 0 {
      Row0Ok(column);
    } else if row == 1 {
      Row1Ok(column);
    } else if row == 2 {
      Row2Ok(column);
    } else if row == 3 {
      Row3Ok(column);
    } else if row == 4 {
      Row4Ok(column);
    } else if row == 5 {
      Row5Ok(column);
    } else if row == 6 {
      Row6Ok(column);
    } else if row == 7 {
      Row7Ok(column);
    } else if row == 8 {
      Row8Ok(column);
    } else if row == 9 {
      Row9Ok(column);
    } else if row == 10 {
      RowAOk(column);
    } else if row == 11 {
      RowBOk(column);
    } else if row == 12 {
      RowCOk(column);
    } else if row == 13 {
      RowDOk(column);
    } else if row == 14 {
      RowEOk(column);
    } else if row == 15 {
      RowFOk(column);
    }
  }

  lemma Split(i: Word) returns (row: Word, column: Word)
    requires i < 256
    ensures row == i >> 4 && column == i & 15 && row < 16 && column < 16 && i == (row << 4) | column
  {
    row, column := i >> 4, i & 15;
  }

  lemma StepOdd(x: Word)
    requires x & 1 == 1
    ensures Step(x) == (x >> 1) ^ 0xEDB88320
  {
  }

  lemma StepEven(x: Word)
    requires x & 1 == 0
    ensures Step(x) == x >> 1
  {
  }

  lemma XorParts(x: Word, y: Word)
    ensures (x ^ y) >> 1 == (x >> 1) ^ (y >> 1)
    ensures (x ^ y) & 1 == (x & 1) ^ (y & 1)
    ensures x & 1 == 0 || x & 1 == 1
    ensures y & 1 == 0 || y & 1 == 1
  {
  }

  lemma XorTwice(x: Word, y: Word, p: Word)
    ensures (x ^ p) ^ (y ^ p) == x ^ y
    ensures (x ^ p) ^ y == (x ^ y) ^ p && x ^ (y ^ p) == (x ^ y) ^ p
  {
  }

  lemma StepXor(x: Word, y: Word)
    ensures Step(x ^ y) == Step(x) ^ Step(y)
  {
    hide Step;
    XorParts(x, y);
    XorTwice(x >> 1, y >> 1, 0xEDB88320);
    if x & 1 == 1 { StepOdd(x); } else { StepEven(x); }
    if y & 1 == 1 { StepOdd(y); } else { StepEven(y); }
    if x & 1 == y & 1 { StepEven(x ^ y); } else { StepOdd(x ^ y); }
  }

  // ----- Word operations under names, to keep bits out of longer proofs -----

  function Xor(x: Word, y: Word): Word { x ^ y }
  function Low(x: Word): (r: Word) ensures r < 256 { x & 0xFF }
  function High(x: Word): (r: Word) ensures r < 0x1000000 { x >> 8 }
  function Up(x: Word): Word { x << 8 }

  lemma SplitWord(x: Word)
    ensures x == Xor(Low(x), Up(High(x)))
  {
  }

  lemma HighIgnoresByte(x: Word, b: Word)
    requires b < 256
    ensures High(Xor(x, b)) == High(x)
  {
  }

  lemma XorSelf(x: Word)
    ensures Xor(x, x) == 0 && Xor(x, 0) == x
  {
  }

  lemma XorAssociative(x: Word, y: Word, z: Word)
    ensures Xor(Xor(x, y), z) == Xor(x, Xor(y, z))
  {
  }

  lemma XorCommutes(x: Word, y: Word)
    ensures Xor(x, y) == Xor(y, x)
  {
  }

  lemma XorExchange(w: Word, x: Word, y: Word, z: Word)
    ensures Xor(Xor(w, x), Xor(y, z)) == Xor(Xor(w, y), Xor(x, z))
  {
    hide Xor;
    XorAssociative(w, x, Xor(y, z));
    XorAssociative(x, y, z);
    XorCommutes(x, y);
    XorAssociative(y, x, z);
    XorAssociative(w, y, Xor(x, z));
  }

  lemma XorMoves(x: Word, y: Word, z: Word)
    requires Xor(x, y) == z
    ensures x == Xor(y, z)
  {
  }

  lemma XorZero(x: Word, y: Word)
    requires Xor(x, y) == 0
    ensures x == y
  {
  }

  lemma StepLinear(x: Word, y: Word)
    ensures Step(Xor(x, y)) == Xor(Step(x), Step(y))
  {
    hide Step;
    StepXor(x, y);
  }

  lemma StepInjective(x: Word, y: Word)
    requires Step(x) == Step(y)
    ensures x == y
  {
  }

  function Four(x: Word): Word { Step(Step(Step(Step(x)))) }

  lemma FourLinear(x: Word, y: Word)
    ensures Four(Xor(x, y)) == Xor(Four(x), Four(y))
  {
    hide Step, Xor;
    StepLinear(x, y);
    StepLinear(Step(x), Step(y));
    StepLinear(Step(Step(x)), Step(Step(y)));
    StepLinear(Step(Step(Step(x))), Step(Step(Step(y))));
  }

  lemma EightIsFourFour(x: Word)
    ensures Eight(x) == Four(Four(x))
  {
  }

  lemma EightLinear(x: Word, y: Word)
    ensures Eight(Xor(x, y)) == Xor(Eight(x), Eight(y))
  {
    hide Step, Four, Xor;
    FourLinear(x, y);
    FourLinear(Four(x), Four(y));
    EightIsFourFour(x);
    EightIsFourFour(y);
    EightIsFourFour(Xor(x, y));
  }

  lemma EightInjective(x: Word, y: Word)
    requires Eight(x) == Eight(y)
    ensures x == y
  {
    hide Step;
    FourInjective(Four(x), Four(y));
    FourInjective(x, y);
  }

  lemma FourInjective(x: Word, y: Word)
    requires Four(x) == Four(y)
    ensures x == y
  {
    hide Step;
    StepInjective(Step(Step(Step(x))), Step(Step(Step(y))));
    StepInjective(Step(Step(x)), Step(Step(y)));
    StepInjective(Step(x), Step(y));
    StepInjective(x, y);
  }

  function TwicePlusOne(x: Word): Word { (x << 1) | 1 }
  function Top(x: Word): Word { x & 0x80000000 }

  /** The step undone: the lowest bit was set exactly if the highest one is. */
  function StepBack(y: Word): Word {
    if Top(y) != 0 then TwicePlusOne(Xor(y, 0xEDB88320)) else y << 1
  }

  lemma StepOfBack(y: Word)
    ensures Step(StepBack(y)) == y
  {
    if Top(y) != 0 {
      var z := Xor(y, 0xEDB88320);
      TopCancels(y);
      StepOfOdd(z);
      hide Step, Xor, TwicePlusOne;
      XorAssociative(y, 0xEDB88320, 0xEDB88320);
      XorSelf(0xEDB88320);
      XorSelf(y);
    } else {
      StepOfEven(y);
    }
  }

  lemma TopCancels(y: Word)
    requires Top(y) != 0
    ensures Top(Xor(y, 0xEDB88320)) == 0
  {
  }

  lemma StepOfOdd(z: Word)
    requires Top(z) == 0
    ensures Step(TwicePlusOne(z)) == Xor(z, 0xEDB88320)
  {
  }

  lemma StepOfEven(y: Word)
    requires Top(y) == 0
    ensures Step(y << 1) == y
  {
  }

  function FourBack(y: Word): Word { StepBack(StepBack(StepBack(StepBack(y)))) }

  lemma FourOfBack(y: Word)
    ensures Four(FourBack(y)) == y
  {
    hide Step, StepBack;
    StepOfBack(y);
    StepOfBack(StepBack(y));
    StepOfBack(StepBack(StepBack(y)));
    StepOfBack(StepBack(StepBack(StepBack(y))));
  }

  function EightBack(y: Word): Word { FourBack(FourBack(y)) }

  lemma EightOfBack(y: Word)
    ensures Eight(EightBack(y)) == y
  {
    hide Four, FourBack;
    EightIsFourFour(EightBack(y));
    FourOfBack(y);
    FourOfBack(FourBack(y));
  }

  lemma StepsShift(x: Word)
    requires x & 0xFF == 0
    ensures Eight(x) == x >> 8
  {
    assert x & 1 == 0 && (x >> 1) & 1 == 0 && (x >> 2) & 1 == 0 && (x >> 3) & 1 == 0;
    assert (x >> 4) & 1 == 0 && (x >> 5) & 1 == 0 && (x >> 6) & 1 == 0 && (x >> 7) & 1 == 0;
    assert Step(x) == x >> 1;
    assert Step(x >> 1) == x >> 2;
    assert Step(x >> 2) == x >> 3;
    assert Step(x >> 3) == x >> 4;
    assert Step(x >> 4) == x >> 5;
    assert Step(x >> 5) == x >> 6;
    assert Step(x >> 6) == x >> 7;
    assert Step(x >> 7) == x >> 8;
  }

  lemma UpAgain(x: Word)
    requires x < 0x1000000
    ensures Up(x) & 0xFF == 0 && Up(x) >> 8 == x
  {
  }

  /** Eight steps only shift a word whose low byte is zero. */
  lemma EightShifts(x: Word)
    requires x < 0x1000000
    ensures Eight(Up(x)) == x
  {
    hide Eight, Up;
    UpAgain(x);
    StepsShift(Up(x));
  }

  // ----- Single bits -----

  function LowBit(x: Word): Word { x & 1 }
  function Half(x: Word): Word { x >> 1 }
  function Even(x: Word): Word { x & 0xFFFFFFFE }

  lemma SplitBit(x: Word)
    ensures x == Xor(LowBit(x), Even(x)) && Step(Even(x)) == Half(x)
  {
  }

  function BitWord(b: bool): (r: Word)
    ensures r < 2
  {
    if b then 1 else 0
  }

  function Twice(x: Word): Word { x << 1 }

  /** A step onto a word without its highest bit only halved. */
  lemma StepOntoSmall(w: Word)
    requires Step(w) < 0x80000000
    ensures w == Twice(Step(w))
  {
  }

  lemma TwiceLinear(x: Word, y: Word)
    ensures Twice(Xor(x, y)) == Xor(Twice(x), Twice(y))
  {
  }

  lemma XorSmall(x: Word, y: Word)
    requires x < 0x80000000 && y < 0x80000000
    ensures Xor(x, y) < 0x80000000
  {
  }

  lemma PackedBit(b: Word, x: Word, c: Word, y: Word)
    requires b < 2 && c < 2 && x < 0x80000000 && y < 0x80000000
    requires Xor(b, Twice(x)) == Xor(c, Twice(y))
    ensures b == c && x == y
  {
  }

  /** `n` ones from the lowest bit on. */
  function Ones(n: nat): Word {
    if n == 0 then 0 else (Ones(n - 1) << 1) | 1
  }

  function Outside(x: Word, mask: Word): Word { x & !mask }

  lemma OutsideStep(b: Word, x: Word, mask: Word)
    requires b < 2 && Outside(x, mask) == 0
    ensures Outside(Xor(b, Twice(x)), (mask << 1) | 1) == 0
  {
  }

  lemma OutsideWiden(x: Word, m: Word, n: Word)
    requires Outside(x, m) == 0 && Outside(m, n) == 0
    ensures Outside(x, n) == 0
  {
  }

  lemma OutsideShift(m: Word, n: Word)
    requires Outside(m, n) == 0
    ensures Outside((m << 1) | 1, (n << 1) | 1) == 0
  {
  }

  lemma {:induction false} OnesGrow(n: nat)
    ensures Outside(Ones(n), Ones(n + 1)) == 0
  {
    if n > 0 {
      OnesGrow(n - 1);
      OutsideShift(Ones(n - 1), Ones(n));
    }
  }

  lemma OnesOf31()
    ensures Ones(31) == 0x7FFFFFFF
  {
    assert Ones(8) == 0xFF;
    assert Ones(16) == 0xFFFF;
    assert Ones(24) == 0xFFFFFF;
    assert Ones(31) == 0x7FFFFFFF;
  }

  lemma {:induction false} OnesFit(n: nat)
    requires n <= 31
    ensures Outside(Ones(n), 0x7FFFFFFF) == 0
    decreases 31 - n
  {
    if n == 31 {
      OnesOf31();
    } else {
      OnesFit(n + 1);
      OnesGrow(n);
      OutsideWiden(Ones(n), Ones(n + 1), 0x7FFFFFFF);
    }
  }

  lemma InsideIsSmall(x: Word, mask: Word)
    requires Outside(x, mask) == 0 && Outside(mask, 0x7FFFFFFF) == 0
    ensures x < 0x80000000
  {
  }
}
