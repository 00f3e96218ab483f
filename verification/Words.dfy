/** Small arithmetic shared by the models. */
module Words {

  function Min(a: int, b: int): int { if a <= b then a else b }

  function Max(a: int, b: int): int { if a >= b then a else b }

  /** A count stored in 16 bits. */
  function ToU16(n: nat): nat { n % 0x1_0000 }
}

/** The littlefs error codes that the models mention. */
module LfsErrors {
  const ERR_NOENT := -2
  const ERR_EXIST := -17
  const ERR_NOTDIR := -20
  const ERR_INVAL := -22
  const ERR_FBIG := -27
  const ERR_NAMETOOLONG := -36
  const ERR_NOTEMPTY := -39
}
