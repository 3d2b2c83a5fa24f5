/**
 The table-driven checksum of the segment summary, and its reference: division of the bit string,
 low bit first, by the reflected polynomial.
 */
module Crc32 {

  const POLYNOMIAL: bv32 := 0xEDB88320

  // ----- the reference -----

  function Xor(x: bv32, y: bv32): bv32 { x ^ y }

  function Widen(b: bv8): bv32 { b as bv32 }

  /** The word without its lowest bit. */
  function Half(c: bv32): bv32 { c >> (1 as bv32) }

  /** The word without its lowest byte. */
  function Upper(c: bv32): bv32 { c >> (8 as bv32) }

  /** One step of the bitwise division. */
  function DivideBit(c: bv32): bv32 {
    if c & 1 == 1 then Xor(Half(c), POLYNOMIAL) else Half(c)
  }

  /** Eight steps: the division of one byte. */
  function DivideByte(c: bv32): bv32 {
    DivideBit(DivideBit(DivideBit(DivideBit(DivideBit(DivideBit(DivideBit(DivideBit(c))))))))
  }

  /** Each byte is added to the low end and divided out. */
  function Bitwise(seed: bv32, bytes: seq<bv8>, n: nat): bv32
    requires n <= |bytes|
  {
    if n == 0 then seed else DivideByte(Xor(Bitwise(seed, bytes, n - 1), Widen(bytes[n - 1])))
  }

  // ----- the table crc32tab, by the two hex digits of the index -----

  function Table0(low: bv8): bv32 {
    match low
    case 0x0 => 0x00000000 case 0x1 => 0x77073096 case 0x2 => 0xEE0E612C case 0x3 => 0x990951BA
    case 0x4 => 0x076DC419 case 0x5 => 0x706AF48F case 0x6 => 0xE963A535 case 0x7 => 0x9E6495A3
    case 0x8 => 0x0EDB8832 case 0x9 => 0x79DCB8A4 case 0xa => 0xE0D5E91E case 0xb => 0x97D2D988
    case 0xc => 0x09B64C2B case 0xd => 0x7EB17CBD case 0xe => 0xE7B82D07 case _ => 0x90BF1D91
  }

  function Table1(low: bv8): bv32 {
    match low
    case 0x0 => 0x1DB71064 case 0x1 => 0x6AB020F2 case 0x2 => 0xF3B97148 case 0x3 => 0x84BE41DE
    case 0x4 => 0x1ADAD47D case 0x5 => 0x6DDDE4EB case 0x6 => 0xF4D4B551 case 0x7 => 0x83D385C7
    case 0x8 => 0x136C9856 case 0x9 => 0x646BA8C0 case 0xa => 0xFD62F97A case 0xb => 0x8A65C9EC
    case 0xc => 0x14015C4F case 0xd => 0x63066CD9 case 0xe => 0xFA0F3D63 case _ => 0x8D080DF5
  }

  function Table2(low: bv8): bv32 {
    match low
    case 0x0 => 0x3B6E20C8 case 0x1 => 0x4C69105E case 0x2 => 0xD56041E4 case 0x3 => 0xA2677172
    case 0x4 => 0x3C03E4D1 case 0x5 => 0x4B04D447 case 0x6 => 0xD20D85FD case 0x7 => 0xA50AB56B
    case 0x8 => 0x35B5A8FA case 0x9 => 0x42B2986C case 0xa => 0xDBBBC9D6 case 0xb => 0xACBCF940
    case 0xc => 0x32D86CE3 case 0xd => 0x45DF5C75 case 0xe => 0xDCD60DCF case _ => 0xABD13D59
  }

  function Table3(low: bv8): bv32 {
    match low
    case 0x0 => 0x26D930AC case 0x1 => 0x51DE003A case 0x2 => 0xC8D75180 case 0x3 => 0xBFD06116
    case 0x4 => 0x21B4F4B5 case 0x5 => 0x56B3C423 case 0x6 => 0xCFBA9599 case 0x7 => 0xB8BDA50F
    case 0x8 => 0x2802B89E case 0x9 => 0x5F058808 case 0xa => 0xC60CD9B2 case 0xb => 0xB10BE924
    case 0xc => 0x2F6F7C87 case 0xd => 0x58684C11 case 0xe => 0xC1611DAB case _ => 0xB6662D3D
  }

  function Table4(low: bv8): bv32 {
    match low
    case 0x0 => 0x76DC4190 case 0x1 => 0x01DB7106 case 0x2 => 0x98D220BC case 0x3 => 0xEFD5102A
    case 0x4 => 0x71B18589 case 0x5 => 0x06B6B51F case 0x6 => 0x9FBFE4A5 case 0x7 => 0xE8B8D433
    case 0x8 => 0x7807C9A2 case 0x9 => 0x0F00F934 case 0xa => 0x9609A88E case 0xb => 0xE10E9818
    case 0xc => 0x7F6A0DBB case 0xd => 0x086D3D2D case 0xe => 0x91646C97 case _ => 0xE6635C01
  }

  function Table5(low: bv8): bv32 {
    match low
    case 0x0 => 0x6B6B51F4 case 0x1 => 0x1C6C6162 case 0x2 => 0x856530D8 case 0x3 => 0xF262004E
    case 0x4 => 0x6C0695ED case 0x5 => 0x1B01A57B case 0x6 => 0x8208F4C1 case 0x7 => 0xF50FC457
    case 0x8 => 0x65B0D9C6 case 0x9 => 0x12B7E950 case 0xa => 0x8BBEB8EA case 0xb => 0xFCB9887C
    case 0xc => 0x62DD1DDF case 0xd => 0x15DA2D49 case 0xe => 0x8CD37CF3 case _ => 0xFBD44C65
  }

  function Table6(low: bv8): bv32 {
    match low
    case 0x0 => 0x4DB26158 case 0x1 => 0x3AB551CE case 0x2 => 0xA3BC0074 case 0x3 => 0xD4BB30E2
    case 0x4 => 0x4ADFA541 case 0x5 => 0x3DD895D7 case 0x6 => 0xA4D1C46D case 0x7 => 0xD3D6F4FB
    case 0x8 => 0x4369E96A case 0x9 => 0x346ED9FC case 0xa => 0xAD678846 case 0xb => 0xDA60B8D0
    case 0xc => 0x44042D73 case 0xd => 0x33031DE5 case 0xe => 0xAA0A4C5F case _ => 0xDD0D7CC9
  }

  function Table7(low: bv8): bv32 {
    match low
    case 0x0 => 0x5005713C case 0x1 => 0x270241AA case 0x2 => 0xBE0B1010 case 0x3 => 0xC90C2086
    case 0x4 => 0x5768B525 case 0x5 => 0x206F85B3 case 0x6 => 0xB966D409 case 0x7 => 0xCE61E49F
    case 0x8 => 0x5EDEF90E case 0x9 => 0x29D9C998 case 0xa => 0xB0D09822 case 0xb => 0xC7D7A8B4
    case 0xc => 0x59B33D17 case 0xd => 0x2EB40D81 case 0xe => 0xB7BD5C3B case _ => 0xC0BA6CAD
  }

  function Table8(low: bv8): bv32 {
    match low
    case 0x0 => 0xEDB88320 case 0x1 => 0x9ABFB3B6 case 0x2 => 0x03B6E20C case 0x3 => 0x74B1D29A
    case 0x4 => 0xEAD54739 case 0x5 => 0x9DD277AF case 0x6 => 0x04DB2615 case 0x7 => 0x73DC1683
    case 0x8 => 0xE3630B12 case 0x9 => 0x94643B84 case 0xa => 0x0D6D6A3E case 0xb => 0x7A6A5AA8
    case 0xc => 0xE40ECF0B case 0xd => 0x9309FF9D case 0xe => 0x0A00AE27 case _ => 0x7D079EB1
  }

  function Table9(low: bv8): bv32 {
    match low
    case 0x0 => 0xF00F9344 case 0x1 => 0x8708A3D2 case 0x2 => 0x1E01F268 case 0x3 => 0x6906C2FE
    case 0x4 => 0xF762575D case 0x5 => 0x806567CB case 0x6 => 0x196C3671 case 0x7 => 0x6E6B06E7
    case 0x8 => 0xFED41B76 case 0x9 => 0x89D32BE0 case 0xa => 0x10DA7A5A case 0xb => 0x67DD4ACC
    case 0xc => 0xF9B9DF6F case 0xd => 0x8EBEEFF9 case 0xe => 0x17B7BE43 case _ => 0x60B08ED5
  }

  function TableA(low: bv8): bv32 {
    match low
    case 0x0 => 0xD6D6A3E8 case 0x1 => 0xA1D1937E case 0x2 => 0x38D8C2C4 case 0x3 => 0x4FDFF252
    case 0x4 => 0xD1BB67F1 case 0x5 => 0xA6BC5767 case 0x6 => 0x3FB506DD case 0x7 => 0x48B2364B
    case 0x8 => 0xD80D2BDA case 0x9 => 0xAF0A1B4C case 0xa => 0x36034AF6 case 0xb => 0x41047A60
    case 0xc => 0xDF60EFC3 case 0xd => 0xA867DF55 case 0xe => 0x316E8EEF case _ => 0x4669BE79
  }

  function TableB(low: bv8): bv32 {
    match low
    case 0x0 => 0xCB61B38C case 0x1 => 0xBC66831A case 0x2 => 0x256FD2A0 case 0x3 => 0x5268E236
    case 0x4 => 0xCC0C7795 case 0x5 => 0xBB0B4703 case 0x6 => 0x220216B9 case 0x7 => 0x5505262F
    case 0x8 => 0xC5BA3BBE case 0x9 => 0xB2BD0B28 case 0xa => 0x2BB45A92 case 0xb => 0x5CB36A04
    case 0xc => 0xC2D7FFA7 case 0xd => 0xB5D0CF31 case 0xe => 0x2CD99E8B case _ => 0x5BDEAE1D
  }

  function TableC(low: bv8): bv32 {
    match low
    case 0x0 => 0x9B64C2B0 case 0x1 => 0xEC63F226 case 0x2 => 0x756AA39C case 0x3 => 0x026D930A
    case 0x4 => 0x9C0906A9 case 0x5 => 0xEB0E363F case 0x6 => 0x72076785 case 0x7 => 0x05005713
    case 0x8 => 0x95BF4A82 case 0x9 => 0xE2B87A14 case 0xa => 0x7BB12BAE case 0xb => 0x0CB61B38
    case 0xc => 0x92D28E9B case 0xd => 0xE5D5BE0D case 0xe => 0x7CDCEFB7 case _ => 0x0BDBDF21
  }

  function TableD(low: bv8): bv32 {
    match low
    case 0x0 => 0x86D3D2D4 case 0x1 => 0xF1D4E242 case 0x2 => 0x68DDB3F8 case 0x3 => 0x1FDA836E
    case 0x4 => 0x81BE16CD case 0x5 => 0xF6B9265B case 0x6 => 0x6FB077E1 case 0x7 => 0x18B74777
    case 0x8 => 0x88085AE6 case 0x9 => 0xFF0F6A70 case 0xa => 0x66063BCA case 0xb => 0x11010B5C
    case 0xc => 0x8F659EFF case 0xd => 0xF862AE69 case 0xe => 0x616BFFD3 case _ => 0x166CCF45
  }

  function TableE(low: bv8): bv32 {
    match low
    case 0x0 => 0xA00AE278 case 0x1 => 0xD70DD2EE case 0x2 => 0x4E048354 case 0x3 => 0x3903B3C2
    case 0x4 => 0xA7672661 case 0x5 => 0xD06016F7 case 0x6 => 0x4969474D case 0x7 => 0x3E6E77DB
    case 0x8 => 0xAED16A4A case 0x9 => 0xD9D65ADC case 0xa => 0x40DF0B66 case 0xb => 0x37D83BF0
    case 0xc => 0xA9BCAE53 case 0xd => 0xDEBB9EC5 case 0xe => 0x47B2CF7F case _ => 0x30B5FFE9
  }

  function TableF(low: bv8): bv32 {
    match low
    case 0x0 => 0xBDBDF21C case 0x1 => 0xCABAC28A case 0x2 => 0x53B39330 case 0x3 => 0x24B4A3A6
    case 0x4 => 0xBAD03605 case 0x5 => 0xCDD70693 case 0x6 => 0x54DE5729 case 0x7 => 0x23D967BF
    case 0x8 => 0xB3667A2E case 0x9 => 0xC4614AB8 case 0xa => 0x5D681B02 case 0xb => 0x2A6F2B94
    case 0xc => 0xB40BBE37 case 0xd => 0xC30C8EA1 case 0xe => 0x5A05DF1B case _ => 0x2D02EF8D
  }

  function TableEntry(i: bv8): bv32 {
    var low := i & 0xF;
    match i >> 4
    case 0x0 => Table0(low) case 0x1 => Table1(low) case 0x2 => Table2(low) case 0x3 => Table3(low)
    case 0x4 => Table4(low) case 0x5 => Table5(low) case 0x6 => Table6(low) case 0x7 => Table7(low)
    case 0x8 => Table8(low) case 0x9 => Table9(low) case 0xa => TableA(low) case 0xb => TableB(low)
    case 0xc => TableC(low) case 0xd => TableD(low) case 0xe => TableE(low) case _ => TableF(low)
  }

  /** Every entry of the table is the division of its index. */
  lemma {:induction false} Table0Divides(i: bv8)
    requires i >> 4 == 0x0
    ensures Table0(i & 0xF) == DivideByte(i as bv32)
  {
    match i & 0xF
    case 0x0 => case 0x1 => case 0x2 => case 0x3 => case 0x4 => case 0x5 => case 0x6 => case 0x7 =>
    case 0x8 => case 0x9 => case 0xa => case 0xb => case 0xc => case 0xd => case 0xe => case _ =>
  }

  lemma {:induction false} Table1Divides(i: bv8)
    requires i >> 4 == 0x1
    ensures Table1(i & 0xF) == DivideByte(i as bv32)
  {
    match i & 0xF
    case 0x0 => case 0x1 => case 0x2 => case 0x3 => case 0x4 => case 0x5 => case 0x6 => case 0x7 =>
    case 0x8 => case 0x9 => case 0xa => case 0xb => case 0xc => case 0xd => case 0xe => case _ =>
  }

  lemma {:induction false} Table2Divides(i: bv8)
    requires i >> 4 == 0x2
    ensures Table2(i & 0xF) == DivideByte(i as bv32)
  {
    match i & 0xF
    case 0x0 => case 0x1 => case 0x2 => case 0x3 => case 0x4 => case 0x5 => case 0x6 => case 0x7 =>
    case 0x8 => case 0x9 => case 0xa => case 0xb => case 0xc => case 0xd => case 0xe => case _ =>
  }

  lemma {:induction false} Table3Divides(i: bv8)
    requires i >> 4 == 0x3
    ensures Table3(i & 0xF) == DivideByte(i as bv32)
  {
    match i & 0xF
    case 0x0 => case 0x1 => case 0x2 => case 0x3 => case 0x4 => case 0x5 => case 0x6 => case 0x7 =>
    case 0x8 => case 0x9 => case 0xa => case 0xb => case 0xc => case 0xd => case 0xe => case _ =>
  }

  lemma {:induction false} Table4Divides(i: bv8)
    requires i >> 4 == 0x4
    ensures Table4(i & 0xF) == DivideByte(i as bv32)
  {
    match i & 0xF
    case 0x0 => case 0x1 => case 0x2 => case 0x3 => case 0x4 => case 0x5 => case 0x6 => case 0x7 =>
    case 0x8 => case 0x9 => case 0xa => case 0xb => case 0xc => case 0xd => case 0xe => case _ =>
  }

  lemma {:induction false} Table5Divides(i: bv8)
    requires i >> 4 == 0x5
    ensures Table5(i & 0xF) == DivideByte(i as bv32)
  {
    match i & 0xF
    case 0x0 => case 0x1 => case 0x2 => case 0x3 => case 0x4 => case 0x5 => case 0x6 => case 0x7 =>
    case 0x8 => case 0x9 => case 0xa => case 0xb => case 0xc => case 0xd => case 0xe => case _ =>
  }

  lemma {:induction false} Table6Divides(i: bv8)
    requires i >> 4 == 0x6
    ensures Table6(i & 0xF) == DivideByte(i as bv32)
  {
    match i & 0xF
    case 0x0 => case 0x1 => case 0x2 => case 0x3 => case 0x4 => case 0x5 => case 0x6 => case 0x7 =>
    case 0x8 => case 0x9 => case 0xa => case 0xb => case 0xc => case 0xd => case 0xe => case _ =>
  }

  lemma {:induction false} Table7Divides(i: bv8)
    requires i >> 4 == 0x7
    ensures Table7(i & 0xF) == DivideByte(i as bv32)
  {
    match i & 0xF
    case 0x0 => case 0x1 => case 0x2 => case 0x3 => case 0x4 => case 0x5 => case 0x6 => case 0x7 =>
    case 0x8 => case 0x9 => case 0xa => case 0xb => case 0xc => case 0xd => case 0xe => case _ =>
  }

  lemma {:induction false} Table8Divides(i: bv8)
    requires i >> 4 == 0x8
    ensures Table8(i & 0xF) == DivideByte(i as bv32)
  {
    match i & 0xF
    case 0x0 => case 0x1 => case 0x2 => case 0x3 => case 0x4 => case 0x5 => case 0x6 => case 0x7 =>
    case 0x8 => case 0x9 => case 0xa => case 0xb => case 0xc => case 0xd => case 0xe => case _ =>
  }

  lemma {:induction false} Table9Divides(i: bv8)
    requires i >> 4 == 0x9
    ensures Table9(i & 0xF) == DivideByte(i as bv32)
  {
    match i & 0xF
    case 0x0 => case 0x1 => case 0x2 => case 0x3 => case 0x4 => case 0x5 => case 0x6 => case 0x7 =>
    case 0x8 => case 0x9 => case 0xa => case 0xb => case 0xc => case 0xd => case 0xe => case _ =>
  }

  lemma {:induction false} TableADivides(i: bv8)
    requires i >> 4 == 0xa
    ensures TableA(i & 0xF) == DivideByte(i as bv32)
  {
    match i & 0xF
    case 0x0 => case 0x1 => case 0x2 => case 0x3 => case 0x4 => case 0x5 => case 0x6 => case 0x7 =>
    case 0x8 => case 0x9 => case 0xa => case 0xb => case 0xc => case 0xd => case 0xe => case _ =>
  }

  lemma {:induction false} TableBDivides(i: bv8)
    requires i >> 4 == 0xb
    ensures TableB(i & 0xF) == DivideByte(i as bv32)
  {
    match i & 0xF
    case 0x0 => case 0x1 => case 0x2 => case 0x3 => case 0x4 => case 0x5 => case 0x6 => case 0x7 =>
    case 0x8 => case 0x9 => case 0xa => case 0xb => case 0xc => case 0xd => case 0xe => case _ =>
  }

  lemma {:induction false} TableCDivides(i: bv8)
    requires i >> 4 == 0xc
    ensures TableC(i & 0xF) == DivideByte(i as bv32)
  {
    match i & 0xF
    case 0x0 => case 0x1 => case 0x2 => case 0x3 => case 0x4 => case 0x5 => case 0x6 => case 0x7 =>
    case 0x8 => case 0x9 => case 0xa => case 0xb => case 0xc => case 0xd => case 0xe => case _ =>
  }

  lemma {:induction false} TableDDivides(i: bv8)
    requires i >> 4 == 0xd
    ensures TableD(i & 0xF) == DivideByte(i as bv32)
  {
    match i & 0xF
    case 0x0 => case 0x1 => case 0x2 => case 0x3 => case 0x4 => case 0x5 => case 0x6 => case 0x7 =>
    case 0x8 => case 0x9 => case 0xa => case 0xb => case 0xc => case 0xd => case 0xe => case _ =>
  }

  lemma {:induction false} TableEDivides(i: bv8)
    requires i >> 4 == 0xe
    ensures TableE(i & 0xF) == DivideByte(i as bv32)
  {
    match i & 0xF
    case 0x0 => case 0x1 => case 0x2 => case 0x3 => case 0x4 => case 0x5 => case 0x6 => case 0x7 =>
    case 0x8 => case 0x9 => case 0xa => case 0xb => case 0xc => case 0xd => case 0xe => case _ =>
  }

  lemma {:induction false} TableFDivides(i: bv8)
    requires i >> 4 == 0xf
    ensures TableF(i & 0xF) == DivideByte(i as bv32)
  {
    match i & 0xF
    case 0x0 => case 0x1 => case 0x2 => case 0x3 => case 0x4 => case 0x5 => case 0x6 => case 0x7 =>
    case 0x8 => case 0x9 => case 0xa => case 0xb => case 0xc => case 0xd => case 0xe => case _ =>
  }

  lemma {:induction false} TableDivides(i: bv8)
    ensures TableEntry(i) == DivideByte(i as bv32)
  {
    match i >> 4 {
      case 0x0 => Table0Divides(i);
      case 0x1 => Table1Divides(i);
      case 0x2 => Table2Divides(i);
      case 0x3 => Table3Divides(i);
      case 0x4 => Table4Divides(i);
      case 0x5 => Table5Divides(i);
      case 0x6 => Table6Divides(i);
      case 0x7 => Table7Divides(i);
      case 0x8 => Table8Divides(i);
      case 0x9 => Table9Divides(i);
      case 0xa => TableADivides(i);
      case 0xb => TableBDivides(i);
      case 0xc => TableCDivides(i);
      case 0xd => TableDDivides(i);
      case 0xe => TableEDivides(i);
      case _ => TableFDivides(i);
    }
  }

  // ----- exclusive or -----

  lemma {:induction false} XorZero(x: bv32)
    ensures Xor(x, 0) == x && Xor(0, x) == x && Xor(x, x) == 0
  {
  }

  lemma {:induction false} XorCommutes(x: bv32, y: bv32)
    ensures Xor(x, y) == Xor(y, x)
  {
  }

  lemma {:induction false} XorAssociates(x: bv32, y: bv32, z: bv32)
    ensures Xor(Xor(x, y), z) == Xor(x, Xor(y, z))
  {
  }

  lemma {:induction false} XorCancels(x: bv32, y: bv32, z: bv32)
    requires Xor(x, z) == Xor(y, z) || Xor(z, x) == Xor(z, y)
    ensures x == y
  {
    hide Xor;
    XorCommutes(x, z);
    XorCommutes(y, z);
    XorAssociates(x, z, z);
    XorAssociates(y, z, z);
    XorZero(z);
    XorZero(x);
    XorZero(y);
  }

  /** Adding z to both sides of a sum cancels out. */
  lemma {:induction false} XorBoth(x: bv32, y: bv32, z: bv32)
    ensures Xor(Xor(x, z), Xor(y, z)) == Xor(x, y)
    ensures Xor(Xor(x, z), y) == Xor(Xor(x, y), z)
    ensures Xor(x, Xor(y, z)) == Xor(Xor(x, y), z)
  {
    hide Xor;
    XorCommutes(y, z);
    XorAssociates(x, z, Xor(y, z));
    XorAssociates(z, z, y);
    XorZero(z);
    XorZero(y);
    XorAssociates(x, z, y);
    XorAssociates(x, y, z);
  }

  // ----- division is linear and one-to-one -----

  lemma {:induction false} HalfLinear(x: bv32, y: bv32)
    ensures Half(Xor(x, y)) == Xor(Half(x), Half(y))
  {
  }

  lemma {:induction false} LowLinear(x: bv32, y: bv32)
    ensures (Xor(x, y) & 1 == 1) <==> ((x & 1 == 1) != (y & 1 == 1))
  {
  }

  lemma {:induction false} BitLinear(x: bv32, y: bv32)
    ensures DivideBit(Xor(x, y)) == Xor(DivideBit(x), DivideBit(y))
  {
    HalfLinear(x, y);
    LowLinear(x, y);
    hide Xor, Half;
    XorBoth(Half(x), Half(y), POLYNOMIAL);
  }

  lemma {:induction false} ByteLinear(x: bv32, y: bv32)
    ensures DivideByte(Xor(x, y)) == Xor(DivideByte(x), DivideByte(y))
  {
    hide DivideBit, Xor;
    var x1, y1 := DivideBit(x), DivideBit(y);
    var x2, y2 := DivideBit(x1), DivideBit(y1);
    var x3, y3 := DivideBit(x2), DivideBit(y2);
    var x4, y4 := DivideBit(x3), DivideBit(y3);
    var x5, y5 := DivideBit(x4), DivideBit(y4);
    var x6, y6 := DivideBit(x5), DivideBit(y5);
    var x7, y7 := DivideBit(x6), DivideBit(y6);
    BitLinear(x, y);
    BitLinear(x1, y1);
    BitLinear(x2, y2);
    BitLinear(x3, y3);
    BitLinear(x4, y4);
    BitLinear(x5, y5);
    BitLinear(x6, y6);
    BitLinear(x7, y7);
  }

  lemma {:induction false} BitInjective(x: bv32, y: bv32)
    requires DivideBit(x) == DivideBit(y)
    ensures x == y
  {
  }

  /** The polynomial's top bit makes the division of one byte one-to-one. */
  lemma {:induction false} ByteInjective(x: bv32, y: bv32)
    requires DivideByte(x) == DivideByte(y)
    ensures x == y
  {
    hide DivideBit;
    var x1, y1 := DivideBit(x), DivideBit(y);
    var x2, y2 := DivideBit(x1), DivideBit(y1);
    var x3, y3 := DivideBit(x2), DivideBit(y2);
    var x4, y4 := DivideBit(x3), DivideBit(y3);
    var x5, y5 := DivideBit(x4), DivideBit(y4);
    var x6, y6 := DivideBit(x5), DivideBit(y5);
    var x7, y7 := DivideBit(x6), DivideBit(y6);
    BitInjective(x7, y7);
    BitInjective(x6, y6);
    BitInjective(x5, y5);
    BitInjective(x4, y4);
    BitInjective(x3, y3);
    BitInjective(x2, y2);
    BitInjective(x1, y1);
    BitInjective(x, y);
  }

  lemma {:induction false} HighShift(h: bv32)
    requires h & 0xFF == 0
    ensures DivideByte(h) == Upper(h)
  {
    ZeroBits(h);
    hide DivideBit;
    EightHalves(h);
  }

  lemma {:induction false} EightHalves(h: bv32)
    ensures Half(Half(Half(Half(Half(Half(Half(Half(h)))))))) == Upper(h)
  {
  }

  lemma {:induction false} ZeroBits(h: bv32)
    requires h & 0xFF == 0
    ensures DivideBit(h) == Half(h)
    ensures DivideBit(Half(h)) == Half(Half(h))
    ensures DivideBit(Half(Half(h))) == Half(Half(Half(h)))
    ensures DivideBit(Half(Half(Half(h)))) == Half(Half(Half(Half(h))))
    ensures DivideBit(Half(Half(Half(Half(h))))) == Half(Half(Half(Half(Half(h)))))
    ensures DivideBit(Half(Half(Half(Half(Half(h)))))) == Half(Half(Half(Half(Half(Half(h))))))
    ensures DivideBit(Half(Half(Half(Half(Half(Half(h))))))) == Half(Half(Half(Half(Half(Half(Half(h)))))))
    ensures DivideBit(Half(Half(Half(Half(Half(Half(Half(h)))))))) == Half(Half(Half(Half(Half(Half(Half(Half(h))))))))
  {
  }

  // ----- the checksum -----

  /** crc32_le computes the reference checksum. */
  method Crc32Le(seed: bv32, buffer: seq<bv8>) returns (crc: bv32)
    ensures crc == Bitwise(seed, buffer, |buffer|)
  {
    hide DivideByte, Xor, Widen, TableStep;
    crc := seed;
    for c := 0 to |buffer|
      invariant crc == Bitwise(seed, buffer, c)
    {
      StepDivides(crc, buffer[c]);
      crc := TableStep(crc, buffer[c]);
    }
  }

  /** The body of the loop. */
  function TableStep(crc: bv32, b: bv8): bv32 {
    Xor(Upper(crc), TableEntry(((crc & 0xFF) as bv8) ^ b))
  }

  /** The table step is the division of one byte. */
  lemma {:induction false} StepDivides(c: bv32, b: bv8)
    ensures TableStep(c, b) == DivideByte(Xor(c, Widen(b)))
  {
    ByteSplit(c, b);
    hide TableEntry, DivideByte, Xor, Widen, Upper;
    TableDivides(((c & 0xFF) as bv8) ^ b);
    DivideByteSplit(Xor(c, Widen(b)));
  }

  lemma {:induction false} ByteSplit(c: bv32, b: bv8)
    ensures Xor(c, Widen(b)) & 0xFF == (((c & 0xFF) as bv8) ^ b) as bv32
    ensures Upper(Xor(c, Widen(b))) == Upper(c)
  {
  }

  lemma {:induction false} SplitWord(x: bv32)
    ensures x == Xor(x & 0xFFFFFF00, x & 0xFF)
    ensures (x & 0xFFFFFF00) & 0xFF == 0
    ensures Upper(x & 0xFFFFFF00) == Upper(x)
  {
  }

  /** The upper bytes are only shifted by the division of one byte. */
  lemma {:induction false} DivideByteSplit(x: bv32)
    ensures DivideByte(x) == Xor(Upper(x), DivideByte(x & 0xFF))
  {
    SplitWord(x);
    hide DivideByte, Xor, Upper;
    ByteLinear(x & 0xFFFFFF00, x & 0xFF);
    HighShift(x & 0xFFFFFF00);
  }

  // ----- what the checksum detects -----

  /** Checksumming block after block is checksumming the concatenation. */
  lemma {:induction false} Chaining(seed: bv32, a: seq<bv8>, b: seq<bv8>, n: nat)
    requires n <= |b|
    ensures Bitwise(Bitwise(seed, a, |a|), b, n) == Bitwise(seed, a + b, |a| + n)
  {
    hide DivideByte, Xor, Widen;
    if n == 0 {
      Prefix(seed, a, a + b, |a|);
    } else {
      Chaining(seed, a, b, n - 1);
    }
  }

  lemma {:induction false} Prefix(seed: bv32, a: seq<bv8>, b: seq<bv8>, n: nat)
    requires n <= |a| && n <= |b| && forall i :: 0 <= i < n ==> a[i] == b[i]
    ensures Bitwise(seed, a, n) == Bitwise(seed, b, n)
  {
    hide DivideByte, Xor, Widen;
    if n > 0 {
      Prefix(seed, a, b, n - 1);
    }
  }

  /** Equal tails carry a difference of the running checksums to the end. */
  lemma {:induction false} DifferenceSurvives(s: bv32, t: bv32, tail: seq<bv8>, n: nat)
    requires n <= |tail| && s != t
    ensures Bitwise(s, tail, n) != Bitwise(t, tail, n)
  {
    hide DivideByte, Xor, Widen;
    if n > 0 {
      DifferenceSurvives(s, t, tail, n - 1);
      StepInjective(Bitwise(s, tail, n - 1), Bitwise(t, tail, n - 1), Widen(tail[n - 1]));
    }
  }

  lemma {:induction false} StepInjective(x: bv32, y: bv32, b: bv32)
    requires x != y
    ensures DivideByte(Xor(x, b)) != DivideByte(Xor(y, b))
  {
    hide DivideByte, Xor;
    if DivideByte(Xor(x, b)) == DivideByte(Xor(y, b)) {
      ByteInjective(Xor(x, b), Xor(y, b));
      XorCancels(x, y, b);
      assert false;
    }
  }

  // ----- bursts of up to four bytes -----

  function DivideBytes(x: bv32, k: nat): bv32 {
    if k == 0 then x else DivideByte(DivideBytes(x, k - 1))
  }

  /** A byte at byte position k of a word. */
  function At(b: bv32, k: nat): bv32 {
    match k
    case 0 => b
    case 1 => b << (8 as bv32)
    case 2 => b << (16 as bv32)
    case _ => b << (24 as bv32)
  }

  /** The first n bytes, four at most, as a little-endian word. */
  function Word(a: seq<bv8>, n: nat): bv32
    requires n <= |a|
  {
    if n == 0 then 0 else Xor(Word(a, n - 1), At(Widen(a[n - 1]), n - 1))
  }

  lemma {:induction false} DivideShifted(b: bv8, p: nat)
    requires p <= 2
    ensures DivideByte(At(Widen(b), p + 1)) == At(Widen(b), p)
  {
    ShiftBack(b, p);
    hide DivideByte, At, Widen;
    HighShift(At(Widen(b), p + 1));
  }

  lemma {:induction false} ShiftBack(b: bv8, p: nat)
    requires p <= 2
    ensures At(Widen(b), p + 1) & 0xFF == 0 && Upper(At(Widen(b), p + 1)) == At(Widen(b), p)
  {
  }

  /** Adding a byte after k divisions is adding it k positions higher before them. */
  lemma {:induction false} Absorb(x: bv32, b: bv8, k: nat, p: nat)
    requires k + p <= 3
    ensures Xor(DivideBytes(x, k), At(Widen(b), p)) == DivideBytes(Xor(x, At(Widen(b), p + k)), k)
    decreases k
  {
    hide DivideByte, Xor, Widen, At;
    if k > 0 {
      DivideShifted(b, p);
      ByteLinear(DivideBytes(x, k - 1), At(Widen(b), p + 1));
      Absorb(x, b, k - 1, p + 1);
    }
  }

  /** Up to four bytes are checksummed like the word they make. */
  lemma {:induction false} WordChecksum(h: bv32, a: seq<bv8>, n: nat)
    requires n <= |a| && n <= 4
    ensures Bitwise(h, a, n) == DivideBytes(Xor(h, Word(a, n)), n)
  {
    XorZero(h);
    hide DivideByte, Xor, Widen, At;
    if n > 0 {
      WordChecksum(h, a, n - 1);
      AtZero(a[n - 1]);
      Absorb(Xor(h, Word(a, n - 1)), a[n - 1], n - 1, 0);
      XorAssociates(h, Word(a, n - 1), At(Widen(a[n - 1]), n - 1));
    }
  }

  lemma {:induction false} AtZero(b: bv8)
    ensures At(Widen(b), 0) == Widen(b)
  {
  }

  lemma {:induction false} BytesInjective(x: bv32, y: bv32, k: nat)
    requires DivideBytes(x, k) == DivideBytes(y, k)
    ensures x == y
  {
    hide DivideByte;
    if k > 0 {
      ByteInjective(DivideBytes(x, k - 1), DivideBytes(y, k - 1));
      BytesInjective(x, y, k - 1);
    }
  }

  /** The byte positions from k on. */
  function Above(k: nat): bv32 {
    match k
    case 0 => 0xFFFFFFFF
    case 1 => 0xFFFFFF00
    case 2 => 0xFFFF0000
    case 3 => 0xFF000000
    case _ => 0
  }

  function From(w: bv32, k: nat): bv32 { w & Above(k) }

  lemma {:induction false} NewByte(w: bv32, b: bv8, p: nat)
    requires p <= 3 && From(w, p) == 0
    ensures From(Xor(w, At(Widen(b), p)), p + 1) == 0
    ensures From(Xor(w, At(Widen(b), p)), p) == At(Widen(b), p)
  {
  }

  lemma {:induction false} NoBits(k: nat)
    ensures From(0, k) == 0
  {
  }

  /** A word has no bits above its bytes, and its top byte is its last one. */
  lemma {:induction false} WordTop(a: seq<bv8>, n: nat)
    requires n <= |a| && n <= 4
    ensures From(Word(a, n), n) == 0
    ensures n > 0 ==> From(Word(a, n), n - 1) == At(Widen(a[n - 1]), n - 1)
  {
    hide Xor, At, Widen, From;
    NoBits(n);
    if n > 0 {
      WordTop(a, n - 1);
      NewByte(Word(a, n - 1), a[n - 1], n - 1);
    }
  }

  lemma {:induction false} AtInjective(x: bv8, y: bv8, k: nat)
    requires k <= 3 && At(Widen(x), k) == At(Widen(y), k)
    ensures x == y
  {
  }

  lemma {:induction false} WordInjective(a: seq<bv8>, b: seq<bv8>, n: nat)
    requires n <= |a| && n <= |b| && n <= 4
    requires Word(a, n) == Word(b, n)
    ensures forall i :: 0 <= i < n ==> a[i] == b[i]
  {
    hide Xor, At, Widen, From;
    if n > 0 {
      WordTop(a, n);
      WordTop(b, n);
      AtInjective(a[n - 1], b[n - 1], n - 1);
      XorCancels(Word(a, n - 1), Word(b, n - 1), At(Widen(a[n - 1]), n - 1));
      WordInjective(a, b, n - 1);
    }
  }

  lemma {:induction false} BurstInjective(h: bv32, a: seq<bv8>, b: seq<bv8>)
    requires |a| == |b| <= 4 && a != b
    ensures Bitwise(h, a, |a|) != Bitwise(h, b, |b|)
  {
    hide DivideBytes, Bitwise, Word, Xor;
    WordChecksum(h, a, |a|);
    WordChecksum(h, b, |b|);
    if Bitwise(h, a, |a|) == Bitwise(h, b, |b|) {
      BytesInjective(Xor(h, Word(a, |a|)), Xor(h, Word(b, |b|)), |a|);
      XorCancels(Word(a, |a|), Word(b, |b|), h);
      WordInjective(a, b, |a|);
      assert false;
    }
  }

  /**
   Two buffers of equal length that differ only within four consecutive bytes never have the same
   checksum.
   */
  lemma {:induction false} BurstDetected(seed: bv32, head: seq<bv8>, a: seq<bv8>, b: seq<bv8>, tail: seq<bv8>)
    requires |a| == |b| <= 4 && a != b
    ensures Bitwise(seed, head + a + tail, |head + a + tail|) != Bitwise(seed, head + b + tail, |head + b + tail|)
  {
    hide Bitwise;
    var h := Bitwise(seed, head, |head|);
    BurstInjective(h, a, b);
    Chaining(seed, head, a, |a|);
    Chaining(seed, head, b, |b|);
    Chaining(seed, head + a, tail, |tail|);
    Chaining(seed, head + b, tail, |tail|);
    DifferenceSurvives(Bitwise(h, a, |a|), Bitwise(h, b, |b|), tail, |tail|);
  }
}
