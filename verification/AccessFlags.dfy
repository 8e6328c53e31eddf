/** The flags of classes, methods and fields. */
module AccessFlags {

  const ACC_PUBLIC := 0x1
  const ACC_PRIVATE := 0x2
  const ACC_PROTECTED := 0x4
  const ACC_STATIC := 0x8
  const ACC_NATIVE := 0x100

  predicate HasFlag(flags: nat, flag: nat)
    requires flag > 0
  {
    flags / flag % 2 == 1
  }
}
