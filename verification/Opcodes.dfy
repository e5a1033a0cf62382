/** The instruction set by name: which instructions are two words, jumps, or fast calls. */
module Opcodes {
  import opened ByteStrings
  import opened JumpCode

  const LOADB: byte := 3
  const GETGLOBAL: byte := 7
  const SETGLOBAL: byte := 8
  const GETIMPORT: byte := 12
  const GETTABLEKS: byte := 15
  const SETTABLEKS: byte := 16
  const NAMECALL: byte := 20
  const RETURN: byte := 22
  const JUMP: byte := 23
  const JUMPBACK: byte := 24
  const JUMPIF: byte := 25
  const JUMPIFNOT: byte := 26
  const JUMPIFEQ: byte := 27
  const JUMPIFLE: byte := 28
  const JUMPIFLT: byte := 29
  const JUMPIFNOTEQ: byte := 30
  const JUMPIFNOTLE: byte := 31
  const JUMPIFNOTLT: byte := 32
  const NEWTABLE: byte := 53
  const SETLIST: byte := 55
  const FORNPREP: byte := 56
  const FORNLOOP: byte := 57
  const FORGLOOP: byte := 58
  const FORGPREP_INEXT: byte := 59
  const FORGPREP_NEXT: byte := 61
  const LOADKX: byte := 66
  const JUMPX: byte := 67
  const FASTCALL: byte := 68
  const FASTCALL1: byte := 73
  const FASTCALL2: byte := 74
  const FASTCALL2K: byte := 75
  const FORGPREP: byte := 76
  const JUMPXEQKNIL: byte := 77
  const JUMPXEQKB: byte := 78
  const JUMPXEQKN: byte := 79
  const JUMPXEQKS: byte := 80

  /** Any other byte counts as one word. */
  lemma TwoWords(op: byte)
    ensures
      OpLength(op) == 2 <==>
        op == GETGLOBAL || op == SETGLOBAL || op == GETIMPORT || op == GETTABLEKS || op == SETTABLEKS ||
        op == NAMECALL || op == JUMPIFEQ || op == JUMPIFLE || op == JUMPIFLT || op == JUMPIFNOTEQ ||
        op == JUMPIFNOTLE || op == JUMPIFNOTLT || op == NEWTABLE || op == SETLIST || op == FORGLOOP || op == LOADKX ||
        op == FASTCALL2 || op == FASTCALL2K || op == JUMPXEQKNIL || op == JUMPXEQKB || op == JUMPXEQKN ||
        op == JUMPXEQKS
  {
  }

  /** The instructions with a jump offset of 16 bits. */
  lemma Jumps(op: byte)
    ensures
      IsJumpD(op) <==>
        op == JUMP || op == JUMPIF || op == JUMPIFNOT || op == JUMPIFEQ || op == JUMPIFLE || op == JUMPIFLT ||
        op == JUMPIFNOTEQ || op == JUMPIFNOTLE || op == JUMPIFNOTLT || op == FORNPREP || op == FORNLOOP ||
        op == FORGPREP || op == FORGLOOP || op == FORGPREP_INEXT || op == FORGPREP_NEXT || op == JUMPBACK ||
        op == JUMPXEQKNIL || op == JUMPXEQKB || op == JUMPXEQKN || op == JUMPXEQKS
  {
  }

  lemma Others(op: byte)
    ensures IsFastCall(op) <==> op == FASTCALL || op == FASTCALL1 || op == FASTCALL2 || op == FASTCALL2K
    ensures LOP_JUMP == JUMP && LOP_JUMPX == JUMPX && LOP_LOADB == LOADB && LOP_RETURN == RETURN
  {
  }
}
