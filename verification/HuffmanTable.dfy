/**
  The concrete Huffman table of src/http/hpack.cpp, and the exact set of bytes it cannot decode.

  Apart from symbol 123, the codes of one length are consecutive and the runs of
  different lengths are disjoint, as in RFC 7541 Appendix B. Symbol 123 has 19 bits
  instead of 15, and its code is a prefix of sixteen 23-bit codes.
 */
module HuffmanTable {
  import opened Bytes
  import opened Huffman

  function Row0(sym: nat): Code {
    match sym
    case 0 => Code(0x1ff8, 13)
    case 1 => Code(0x7fffd8, 23)
    case 2 => Code(0xfffffe2, 28)
    case 3 => Code(0xfffffe3, 28)
    case 4 => Code(0xfffffe4, 28)
    case 5 => Code(0xfffffe5, 28)
    case 6 => Code(0xfffffe6, 28)
    case 7 => Code(0xfffffe7, 28)
    case 8 => Code(0xfffffe8, 28)
    case 9 => Code(0xffffea, 24)
    case 10 => Code(0x3ffffffc, 30)
    case 11 => Code(0xfffffe9, 28)
    case 12 => Code(0xfffffea, 28)
    case 13 => Code(0x3ffffffd, 30)
    case 14 => Code(0xfffffeb, 28)
    case _ => Code(0xfffffec, 28)
  }

  function Row1(sym: nat): Code {
    match sym
    case 16 => Code(0xfffffed, 28)
    case 17 => Code(0xfffffee, 28)
    case 18 => Code(0xfffffef, 28)
    case 19 => Code(0xffffff0, 28)
    case 20 => Code(0xffffff1, 28)
    case 21 => Code(0xffffff2, 28)
    case 22 => Code(0x3ffffffe, 30)
    case 23 => Code(0xffffff3, 28)
    case 24 => Code(0xffffff4, 28)
    case 25 => Code(0xffffff5, 28)
    case 26 => Code(0xffffff6, 28)
    case 27 => Code(0xffffff7, 28)
    case 28 => Code(0xffffff8, 28)
    case 29 => Code(0xffffff9, 28)
    case 30 => Code(0xffffffa, 28)
    case _ => Code(0xffffffb, 28)
  }

  function Row2(sym: nat): Code {
    match sym
    case 32 => Code(0x14, 6)
    case 33 => Code(0x3f8, 10)
    case 34 => Code(0x3f9, 10)
    case 35 => Code(0xffa, 12)
    case 36 => Code(0x1ff9, 13)
    case 37 => Code(0x15, 6)
    case 38 => Code(0xf8, 8)
    case 39 => Code(0x7fa, 11)
    case 40 => Code(0x3fa, 10)
    case 41 => Code(0x3fb, 10)
    case 42 => Code(0xf9, 8)
    case 43 => Code(0x7fb, 11)
    case 44 => Code(0xfa, 8)
    case 45 => Code(0x16, 6)
    case 46 => Code(0x17, 6)
    case _ => Code(0x18, 6)
  }

  function Row3(sym: nat): Code {
    match sym
    case 48 => Code(0x0, 5)
    case 49 => Code(0x1, 5)
    case 50 => Code(0x2, 5)
    case 51 => Code(0x19, 6)
    case 52 => Code(0x1a, 6)
    case 53 => Code(0x1b, 6)
    case 54 => Code(0x1c, 6)
    case 55 => Code(0x1d, 6)
    case 56 => Code(0x1e, 6)
    case 57 => Code(0x1f, 6)
    case 58 => Code(0x5c, 7)
    case 59 => Code(0xfb, 8)
    case 60 => Code(0x7ffc, 15)
    case 61 => Code(0x20, 6)
    case 62 => Code(0xffb, 12)
    case _ => Code(0x3fc, 10)
  }

  function Row4(sym: nat): Code {
    match sym
    case 64 => Code(0x1ffa, 13)
    case 65 => Code(0x21, 6)
    case 66 => Code(0x5d, 7)
    case 67 => Code(0x5e, 7)
    case 68 => Code(0x5f, 7)
    case 69 => Code(0x60, 7)
    case 70 => Code(0x61, 7)
    case 71 => Code(0x62, 7)
    case 72 => Code(0x63, 7)
    case 73 => Code(0x64, 7)
    case 74 => Code(0x65, 7)
    case 75 => Code(0x66, 7)
    case 76 => Code(0x67, 7)
    case 77 => Code(0x68, 7)
    case 78 => Code(0x69, 7)
    case _ => Code(0x6a, 7)
  }

  function Row5(sym: nat): Code {
    match sym
    case 80 => Code(0x6b, 7)
    case 81 => Code(0x6c, 7)
    case 82 => Code(0x6d, 7)
    case 83 => Code(0x6e, 7)
    case 84 => Code(0x6f, 7)
    case 85 => Code(0x70, 7)
    case 86 => Code(0x71, 7)
    case 87 => Code(0x72, 7)
    case 88 => Code(0xfc, 8)
    case 89 => Code(0x73, 7)
    case 90 => Code(0xfd, 8)
    case 91 => Code(0x1ffb, 13)
    case 92 => Code(0x7fff0, 19)
    case 93 => Code(0x1ffc, 13)
    case 94 => Code(0x3ffc, 14)
    case _ => Code(0x22, 6)
  }

  function Row6(sym: nat): Code {
    match sym
    case 96 => Code(0x7ffd, 15)
    case 97 => Code(0x3, 5)
    case 98 => Code(0x23, 6)
    case 99 => Code(0x4, 5)
    case 100 => Code(0x24, 6)
    case 101 => Code(0x5, 5)
    case 102 => Code(0x25, 6)
    case 103 => Code(0x26, 6)
    case 104 => Code(0x27, 6)
    case 105 => Code(0x6, 5)
    case 106 => Code(0x74, 7)
    case 107 => Code(0x75, 7)
    case 108 => Code(0x28, 6)
    case 109 => Code(0x29, 6)
    case 110 => Code(0x2a, 6)
    case _ => Code(0x7, 5)
  }

  function Row7(sym: nat): Code {
    match sym
    case 112 => Code(0x2b, 6)
    case 113 => Code(0x76, 7)
    case 114 => Code(0x2c, 6)
    case 115 => Code(0x8, 5)
    case 116 => Code(0x9, 5)
    case 117 => Code(0x2d, 6)
    case 118 => Code(0x77, 7)
    case 119 => Code(0x78, 7)
    case 120 => Code(0x79, 7)
    case 121 => Code(0x7a, 7)
    case 122 => Code(0x7b, 7)
    case 123 => Code(0x7fffe, 19)
    case 124 => Code(0x7fc, 11)
    case 125 => Code(0x3ffd, 14)
    case 126 => Code(0x1ffd, 13)
    case _ => Code(0xffffffc, 28)
  }

  function Row8(sym: nat): Code {
    match sym
    case 128 => Code(0xfffe6, 20)
    case 129 => Code(0x3fffd2, 22)
    case 130 => Code(0xfffe7, 20)
    case 131 => Code(0xfffe8, 20)
    case 132 => Code(0x3fffd3, 22)
    case 133 => Code(0x3fffd4, 22)
    case 134 => Code(0x3fffd5, 22)
    case 135 => Code(0x7fffd9, 23)
    case 136 => Code(0x3fffd6, 22)
    case 137 => Code(0x7fffda, 23)
    case 138 => Code(0x7fffdb, 23)
    case 139 => Code(0x7fffdc, 23)
    case 140 => Code(0x7fffdd, 23)
    case 141 => Code(0x7fffde, 23)
    case 142 => Code(0xffffeb, 24)
    case _ => Code(0x7fffdf, 23)
  }

  function Row9(sym: nat): Code {
    match sym
    case 144 => Code(0xffffec, 24)
    case 145 => Code(0xffffed, 24)
    case 146 => Code(0x3fffd7, 22)
    case 147 => Code(0x7fffe0, 23)
    case 148 => Code(0xffffee, 24)
    case 149 => Code(0x7fffe1, 23)
    case 150 => Code(0x7fffe2, 23)
    case 151 => Code(0x7fffe3, 23)
    case 152 => Code(0x7fffe4, 23)
    case 153 => Code(0x1fffdc, 21)
    case 154 => Code(0x3fffd8, 22)
    case 155 => Code(0x7fffe5, 23)
    case 156 => Code(0x3fffd9, 22)
    case 157 => Code(0x7fffe6, 23)
    case 158 => Code(0x7fffe7, 23)
    case _ => Code(0xffffef, 24)
  }

  function Row10(sym: nat): Code {
    match sym
    case 160 => Code(0x3fffda, 22)
    case 161 => Code(0x1fffdd, 21)
    case 162 => Code(0xfffe9, 20)
    case 163 => Code(0x3fffdb, 22)
    case 164 => Code(0x3fffdc, 22)
    case 165 => Code(0x7fffe8, 23)
    case 166 => Code(0x7fffe9, 23)
    case 167 => Code(0x1fffde, 21)
    case 168 => Code(0x7fffea, 23)
    case 169 => Code(0x3fffdd, 22)
    case 170 => Code(0x3fffde, 22)
    case 171 => Code(0xfffff0, 24)
    case 172 => Code(0x1fffdf, 21)
    case 173 => Code(0x3fffdf, 22)
    case 174 => Code(0x7fffeb, 23)
    case _ => Code(0x7fffec, 23)
  }

  function Row11(sym: nat): Code {
    match sym
    case 176 => Code(0x1fffe0, 21)
    case 177 => Code(0x1fffe1, 21)
    case 178 => Code(0x3fffe0, 22)
    case 179 => Code(0x1fffe2, 21)
    case 180 => Code(0x7fffed, 23)
    case 181 => Code(0x3fffe1, 22)
    case 182 => Code(0x7fffee, 23)
    case 183 => Code(0x7fffef, 23)
    case 184 => Code(0xfffea, 20)
    case 185 => Code(0x3fffe2, 22)
    case 186 => Code(0x3fffe3, 22)
    case 187 => Code(0x3fffe4, 22)
    case 188 => Code(0x7ffff0, 23)
    case 189 => Code(0x3fffe5, 22)
    case 190 => Code(0x3fffe6, 22)
    case _ => Code(0x7ffff1, 23)
  }

  function Row12(sym: nat): Code {
    match sym
    case 192 => Code(0x3ffffe0, 26)
    case 193 => Code(0x3ffffe1, 26)
    case 194 => Code(0xfffeb, 20)
    case 195 => Code(0x7fff1, 19)
    case 196 => Code(0x3fffe7, 22)
    case 197 => Code(0x7ffff2, 23)
    case 198 => Code(0x3fffe8, 22)
    case 199 => Code(0x1ffffec, 25)
    case 200 => Code(0x3ffffe2, 26)
    case 201 => Code(0x3ffffe3, 26)
    case 202 => Code(0x3ffffe4, 26)
    case 203 => Code(0x7ffffde, 27)
    case 204 => Code(0x7ffffdf, 27)
    case 205 => Code(0x3ffffe5, 26)
    case 206 => Code(0xfffff1, 24)
    case _ => Code(0x1ffffed, 25)
  }

  function Row13(sym: nat): Code {
    match sym
    case 208 => Code(0x7fff2, 19)
    case 209 => Code(0x1fffe3, 21)
    case 210 => Code(0x3ffffe6, 26)
    case 211 => Code(0x7ffffe0, 27)
    case 212 => Code(0x7ffffe1, 27)
    case 213 => Code(0x3ffffe7, 26)
    case 214 => Code(0x7ffffe2, 27)
    case 215 => Code(0xfffff2, 24)
    case 216 => Code(0x1fffe4, 21)
    case 217 => Code(0x1fffe5, 21)
    case 218 => Code(0x3ffffe8, 26)
    case 219 => Code(0x3ffffe9, 26)
    case 220 => Code(0xffffffd, 28)
    case 221 => Code(0x7ffffe3, 27)
    case 222 => Code(0x7ffffe4, 27)
    case _ => Code(0x7ffffe5, 27)
  }

  function Row14(sym: nat): Code {
    match sym
    case 224 => Code(0xfffec, 20)
    case 225 => Code(0xfffff3, 24)
    case 226 => Code(0xfffed, 20)
    case 227 => Code(0x1fffe6, 21)
    case 228 => Code(0x3fffe9, 22)
    case 229 => Code(0x1fffe7, 21)
    case 230 => Code(0x1fffe8, 21)
    case 231 => Code(0x7ffff3, 23)
    case 232 => Code(0x3fffea, 22)
    case 233 => Code(0x3fffeb, 22)
    case 234 => Code(0x1ffffee, 25)
    case 235 => Code(0x1ffffef, 25)
    case 236 => Code(0xfffff4, 24)
    case 237 => Code(0xfffff5, 24)
    case 238 => Code(0x3ffffea, 26)
    case _ => Code(0x7ffff4, 23)
  }

  function Row15(sym: nat): Code {
    match sym
    case 240 => Code(0x3ffffeb, 26)
    case 241 => Code(0x7ffffe6, 27)
    case 242 => Code(0x3ffffec, 26)
    case 243 => Code(0x3ffffed, 26)
    case 244 => Code(0x7ffffe7, 27)
    case 245 => Code(0x7ffffe8, 27)
    case 246 => Code(0x7ffffe9, 27)
    case 247 => Code(0x7ffffea, 27)
    case 248 => Code(0x7ffffeb, 27)
    case 249 => Code(0xffffffe, 28)
    case 250 => Code(0x7ffffec, 27)
    case 251 => Code(0x7ffffed, 27)
    case 252 => Code(0x7ffffee, 27)
    case 253 => Code(0x7ffffef, 27)
    case 254 => Code(0x7fffff0, 27)
    case _ => Code(0x3ffffee, 26)
  }

  function Entry(sym: nat): Code {
    if sym < 16 then Row0(sym) else
    if sym < 32 then Row1(sym) else
    if sym < 48 then Row2(sym) else
    if sym < 64 then Row3(sym) else
    if sym < 80 then Row4(sym) else
    if sym < 96 then Row5(sym) else
    if sym < 112 then Row6(sym) else
    if sym < 128 then Row7(sym) else
    if sym < 144 then Row8(sym) else
    if sym < 160 then Row9(sym) else
    if sym < 176 then Row10(sym) else
    if sym < 192 then Row11(sym) else
    if sym < 208 then Row12(sym) else
    if sym < 224 then Row13(sym) else
    if sym < 240 then Row14(sym) else
    if sym < 256 then Row15(sym) else
    Code(0x3fffffff, 30)
  }

  /** The symbol at a place in the canonical ordering, 256 where there is none. */
  function SymbolAt(c: Code): nat {
    match c.bits
    case 5 => (match c.code - 0x0
      case 0 => 48 case 1 => 49 case 2 => 50 case 3 => 97 case 4 => 99 case 5 => 101 case 6 => 105 case 7 => 111
      case 8 => 115 case 9 => 116 case _ => 256)
    case 6 => (match c.code - 0x14
      case 0 => 32 case 1 => 37 case 2 => 45 case 3 => 46 case 4 => 47 case 5 => 51 case 6 => 52 case 7 => 53
      case 8 => 54 case 9 => 55 case 10 => 56 case 11 => 57 case 12 => 61 case 13 => 65 case 14 => 95 case 15 => 98
      case 16 => 100 case 17 => 102 case 18 => 103 case 19 => 104
      case 20 => 108 case 21 => 109 case 22 => 110 case 23 => 112
      case 24 => 114 case 25 => 117 case _ => 256)
    case 7 => (match c.code - 0x5c
      case 0 => 58 case 1 => 66 case 2 => 67 case 3 => 68 case 4 => 69 case 5 => 70 case 6 => 71 case 7 => 72
      case 8 => 73 case 9 => 74 case 10 => 75 case 11 => 76 case 12 => 77 case 13 => 78 case 14 => 79 case 15 => 80
      case 16 => 81 case 17 => 82 case 18 => 83 case 19 => 84 case 20 => 85 case 21 => 86 case 22 => 87 case 23 => 89
      case 24 => 106 case 25 => 107 case 26 => 113 case 27 => 118
      case 28 => 119 case 29 => 120 case 30 => 121 case 31 => 122
      case _ => 256)
    case 8 => (match c.code - 0xf8
      case 0 => 38 case 1 => 42 case 2 => 44 case 3 => 59 case 4 => 88 case 5 => 90 case _ => 256)
    case 10 => (match c.code - 0x3f8
      case 0 => 33 case 1 => 34 case 2 => 40 case 3 => 41 case 4 => 63 case _ => 256)
    case 11 => (match c.code - 0x7fa
      case 0 => 39 case 1 => 43 case 2 => 124 case _ => 256)
    case 12 => (match c.code - 0xffa
      case 0 => 35 case 1 => 62 case _ => 256)
    case 13 => (match c.code - 0x1ff8
      case 0 => 0 case 1 => 36 case 2 => 64 case 3 => 91 case 4 => 93 case 5 => 126 case _ => 256)
    case 14 => (match c.code - 0x3ffc
      case 0 => 94 case 1 => 125 case _ => 256)
    case 15 => (match c.code - 0x7ffc
      case 0 => 60 case 1 => 96 case _ => 256)
    case 19 => (match c.code - 0x7fff0
      case 0 => 92 case 1 => 195 case 2 => 208 case _ => 256)
    case 20 => (match c.code - 0xfffe6
      case 0 => 128 case 1 => 130 case 2 => 131 case 3 => 162 case 4 => 184 case 5 => 194 case 6 => 224 case 7 => 226
      case _ => 256)
    case 21 => (match c.code - 0x1fffdc
      case 0 => 153 case 1 => 161 case 2 => 167 case 3 => 172 case 4 => 176 case 5 => 177 case 6 => 179 case 7 => 209
      case 8 => 216 case 9 => 217 case 10 => 227 case 11 => 229 case 12 => 230 case _ => 256)
    case 22 => (match c.code - 0x3fffd2
      case 0 => 129 case 1 => 132 case 2 => 133 case 3 => 134 case 4 => 136 case 5 => 146 case 6 => 154 case 7 => 156
      case 8 => 160 case 9 => 163 case 10 => 164 case 11 => 169
      case 12 => 170 case 13 => 173 case 14 => 178 case 15 => 181
      case 16 => 185 case 17 => 186 case 18 => 187 case 19 => 189
      case 20 => 190 case 21 => 196 case 22 => 198 case 23 => 228
      case 24 => 232 case 25 => 233 case _ => 256)
    case 23 => (match c.code - 0x7fffd8
      case 0 => 1 case 1 => 135 case 2 => 137 case 3 => 138 case 4 => 139 case 5 => 140 case 6 => 141 case 7 => 143
      case 8 => 147 case 9 => 149 case 10 => 150 case 11 => 151
      case 12 => 152 case 13 => 155 case 14 => 157 case 15 => 158
      case 16 => 165 case 17 => 166 case 18 => 168 case 19 => 174
      case 20 => 175 case 21 => 180 case 22 => 182 case 23 => 183
      case 24 => 188 case 25 => 191 case 26 => 197 case 27 => 231 case 28 => 239 case _ => 256)
    case 24 => (match c.code - 0xffffea
      case 0 => 9 case 1 => 142 case 2 => 144 case 3 => 145 case 4 => 148 case 5 => 159 case 6 => 171 case 7 => 206
      case 8 => 215 case 9 => 225 case 10 => 236 case 11 => 237 case _ => 256)
    case 25 => (match c.code - 0x1ffffec
      case 0 => 199 case 1 => 207 case 2 => 234 case 3 => 235 case _ => 256)
    case 26 => (match c.code - 0x3ffffe0
      case 0 => 192 case 1 => 193 case 2 => 200 case 3 => 201 case 4 => 202 case 5 => 205 case 6 => 210 case 7 => 213
      case 8 => 218 case 9 => 219 case 10 => 238 case 11 => 240
      case 12 => 242 case 13 => 243 case 14 => 255 case _ => 256)
    case 27 => (match c.code - 0x7ffffde
      case 0 => 203 case 1 => 204 case 2 => 211 case 3 => 212 case 4 => 214 case 5 => 221 case 6 => 222 case 7 => 223
      case 8 => 241 case 9 => 244 case 10 => 245 case 11 => 246
      case 12 => 247 case 13 => 248 case 14 => 250 case 15 => 251
      case 16 => 252 case 17 => 253 case 18 => 254 case _ => 256)
    case 28 => (match c.code - 0xfffffe2
      case 0 => 2 case 1 => 3 case 2 => 4 case 3 => 5 case 4 => 6 case 5 => 7 case 6 => 8 case 7 => 11
      case 8 => 12 case 9 => 14 case 10 => 15 case 11 => 16 case 12 => 17 case 13 => 18 case 14 => 19 case 15 => 20
      case 16 => 21 case 17 => 23 case 18 => 24 case 19 => 25 case 20 => 26 case 21 => 27 case 22 => 28 case 23 => 29
      case 24 => 30 case 25 => 31 case 26 => 127 case 27 => 220 case 28 => 249 case _ => 256)
    case 30 => (match c.code - 0x3ffffffc
      case 0 => 10 case 1 => 13 case 2 => 22 case _ => 256)
    case _ => 256
  }

  /** The first code of a length, shifted left to 30 bits. */
  function Start(bits: nat): nat {
    match bits
    case 5 => 0x0
    case 6 => 0x14000000
    case 7 => 0x2e000000
    case 8 => 0x3e000000
    case 10 => 0x3f800000
    case 11 => 0x3fd00000
    case 12 => 0x3fe80000
    case 13 => 0x3ff00000
    case 14 => 0x3ffc0000
    case 15 => 0x3ffe0000
    case 19 => 0x3fff8000
    case 20 => 0x3fff9800
    case 21 => 0x3fffb800
    case 22 => 0x3fffd200
    case 23 => 0x3fffec00
    case 24 => 0x3ffffa80
    case 25 => 0x3ffffd80
    case 26 => 0x3ffffe00
    case 27 => 0x3ffffef0
    case 28 => 0x3fffff88
    case 30 => 0x3ffffffc
    case _ => 0
  }

  /** The end of the run of codes of a length, shifted left to 30 bits. */
  function End(bits: nat): nat {
    match bits
    case 5 => 0x14000000
    case 6 => 0x2e000000
    case 7 => 0x3e000000
    case 8 => 0x3f800000
    case 10 => 0x3fd00000
    case 11 => 0x3fe80000
    case 12 => 0x3ff00000
    case 13 => 0x3ffc0000
    case 14 => 0x3ffe0000
    case 15 => 0x3fff0000
    case 19 => 0x3fff9800
    case 20 => 0x3fffb800
    case 21 => 0x3fffd200
    case 22 => 0x3fffec00
    case 23 => 0x3ffffa80
    case 24 => 0x3ffffd80
    case 25 => 0x3ffffe00
    case 26 => 0x3ffffef0
    case 27 => 0x3fffff88
    case 28 => 0x3ffffffc
    case 30 => 0x3fffffff
    case _ => 0
  }

  /** The width of one code of a length inside the 30-bit space. */
  function Width(bits: nat): nat {
    match bits
    case 5 => 0x2000000
    case 6 => 0x1000000
    case 7 => 0x800000
    case 8 => 0x400000
    case 10 => 0x100000
    case 11 => 0x80000
    case 12 => 0x40000
    case 13 => 0x20000
    case 14 => 0x10000
    case 15 => 0x8000
    case 19 => 0x800
    case 20 => 0x400
    case 21 => 0x200
    case 22 => 0x100
    case 23 => 0x80
    case 24 => 0x40
    case 25 => 0x20
    case 26 => 0x10
    case 27 => 0x8
    case 28 => 0x4
    case 30 => 0x1
    case _ => 0
  }

  lemma Row0Canonical(sym: nat)
    requires 0 <= sym < 16 && sym != 123
    ensures SymbolAt(Row0(sym)) == sym
  {
  }

  lemma Row1Canonical(sym: nat)
    requires 16 <= sym < 32 && sym != 123
    ensures SymbolAt(Row1(sym)) == sym
  {
  }

  lemma Row2Canonical(sym: nat)
    requires 32 <= sym < 48 && sym != 123
    ensures SymbolAt(Row2(sym)) == sym
  {
  }

  lemma Row3Canonical(sym: nat)
    requires 48 <= sym < 64 && sym != 123
    ensures SymbolAt(Row3(sym)) == sym
  {
  }

  lemma Row4Canonical(sym: nat)
    requires 64 <= sym < 80 && sym != 123
    ensures SymbolAt(Row4(sym)) == sym
  {
  }

  lemma Row5Canonical(sym: nat)
    requires 80 <= sym < 96 && sym != 123
    ensures SymbolAt(Row5(sym)) == sym
  {
  }

  lemma Row6Canonical(sym: nat)
    requires 96 <= sym < 112 && sym != 123
    ensures SymbolAt(Row6(sym)) == sym
  {
  }

  lemma Row7Canonical(sym: nat)
    requires 112 <= sym < 128 && sym != 123
    ensures SymbolAt(Row7(sym)) == sym
  {
  }

  lemma Row8Canonical(sym: nat)
    requires 128 <= sym < 144 && sym != 123
    ensures SymbolAt(Row8(sym)) == sym
  {
  }

  lemma Row9Canonical(sym: nat)
    requires 144 <= sym < 160 && sym != 123
    ensures SymbolAt(Row9(sym)) == sym
  {
  }

  lemma Row10Canonical(sym: nat)
    requires 160 <= sym < 176 && sym != 123
    ensures SymbolAt(Row10(sym)) == sym
  {
  }

  lemma Row11Canonical(sym: nat)
    requires 176 <= sym < 192 && sym != 123
    ensures SymbolAt(Row11(sym)) == sym
  {
  }

  lemma Row12Canonical(sym: nat)
    requires 192 <= sym < 208 && sym != 123
    ensures SymbolAt(Row12(sym)) == sym
  {
  }

  lemma Row13Canonical(sym: nat)
    requires 208 <= sym < 224 && sym != 123
    ensures SymbolAt(Row13(sym)) == sym
  {
  }

  lemma Row14Canonical(sym: nat)
    requires 224 <= sym < 240 && sym != 123
    ensures SymbolAt(Row14(sym)) == sym
  {
  }

  lemma Row15Canonical(sym: nat)
    requires 240 <= sym < 256 && sym != 123
    ensures SymbolAt(Row15(sym)) == sym
  {
  }

  /** Every symbol but 123 sits at its own canonical place, so no two share a code. */
  lemma Canonical(sym: nat)
    requires sym < 256 && sym != 123
    ensures SymbolAt(Entry(sym)) == sym
  {
    if sym < 16 {
      Row0Canonical(sym);
    } else if sym < 32 {
      Row1Canonical(sym);
    } else if sym < 48 {
      Row2Canonical(sym);
    } else if sym < 64 {
      Row3Canonical(sym);
    } else if sym < 80 {
      Row4Canonical(sym);
    } else if sym < 96 {
      Row5Canonical(sym);
    } else if sym < 112 {
      Row6Canonical(sym);
    } else if sym < 128 {
      Row7Canonical(sym);
    } else if sym < 144 {
      Row8Canonical(sym);
    } else if sym < 160 {
      Row9Canonical(sym);
    } else if sym < 176 {
      Row10Canonical(sym);
    } else if sym < 192 {
      Row11Canonical(sym);
    } else if sym < 208 {
      Row12Canonical(sym);
    } else if sym < 224 {
      Row13Canonical(sym);
    } else if sym < 240 {
      Row14Canonical(sym);
    } else if sym < 256 {
      Row15Canonical(sym);
    }
  }

  lemma WidthIsPower(bits: nat)
    requires Width(bits) != 0
    ensures bits <= 30 && Width(bits) == Pow2(30 - bits)
  {
    Pow2Literals();
    if bits <= 14 {
      Pow2Add(16, 14 - bits);
      Pow2Add(8, 8);
    }
    if 14 < bits <= 22 {
      Pow2Add(8, 22 - bits);
    }
  }

  /** A canonical place lies in the band of its length. */
  lemma InBand(c: Code)
    requires SymbolAt(c) != 256
    ensures Width(c.bits) > 0
    ensures Start(c.bits) <= c.code * Width(c.bits)
    ensures c.code * Width(c.bits) + Width(c.bits) <= End(c.bits)
  {
  }

  lemma BandsApart(m: nat, n: nat)
    requires m < n && Width(m) > 0 && Width(n) > 0
    ensures End(m) <= Start(n)
  {
  }

  lemma PrefixInside(c1: Code, c2: Code)
    requires PrefixOf(c1, c2) && c2.bits <= 30
    ensures c1.code * Pow2(30 - c1.bits) <= c2.code * Pow2(30 - c2.bits) < c1.code * Pow2(30 - c1.bits)
            + Pow2(30 - c1.bits)
  {
    var d, w := Pow2(c2.bits - c1.bits), Pow2(30 - c2.bits);
    Pow2Add(c2.bits - c1.bits, 30 - c2.bits);
    ScaledInside(c1.code, c2.code, d, w);
  }

  lemma ScaledInside(q: nat, x: nat, d: nat, w: nat)
    requires d > 0 && w > 0 && x / d == q
    ensures q * (d * w) <= x * w < q * (d * w) + d * w
  {
    var r := x % d;
    assert x == q * d + r;
    Distribute(q * d, r, w);
    assert (q * d) * w == q * (d * w);
    Distribute(d, r, w);
    MultipleAtLeast(d - r, w);
    assert 0 <= r * w;
  }

  lemma SpaceBound(bits: nat)
    requires Width(bits) > 0
    ensures 1 <= bits && End(bits) <= Pow2(30)
  {
    Pow2Add(22, 8);
    Pow2Add(14, 8);
    Pow2Add(8, 6);
    Pow2Literals();
  }

  lemma ScaledBelow(x: nat, y: nat, w: nat)
    requires w > 0 && x * w + w <= y * w
    ensures x < y
  {
    if x >= y {
      ProductUp(y, x, w);
    }
  }

  lemma BandBounds(c: Code)
    requires SymbolAt(c) != 256
    ensures 1 <= c.bits <= 30 && c.code < Pow2(c.bits)
  {
    InBand(c);
    WidthIsPower(c.bits);
    SpaceBound(c.bits);
    Pow2Add(c.bits, 30 - c.bits);
    ScaledBelow(c.code, Pow2(c.bits), Width(c.bits));
  }

  lemma EntryBounds(sym: nat)
    requires sym < 256
    ensures 1 <= Entry(sym).bits <= 30 && Entry(sym).code < Pow2(Entry(sym).bits)
  {
    if sym == 123 {
      assert Pow2(19) == 0x80000 by { Pow2Add(11, 8); Pow2Add(8, 3); Pow2Literals(); }
    } else {
      Canonical(sym);
      BandBounds(Entry(sym));
    }
  }

  /** The table the codec uses: 256 byte symbols and end-of-string. */
  function HpackHuffman(): Table {
    assert forall i: nat :: i < 256 ==> 1 <= Entry(i).bits <= 30 && Entry(i).code < Pow2(Entry(i).bits) by {
      forall i: nat | i < 256 ensures 1 <= Entry(i).bits <= 30 && Entry(i).code < Pow2(Entry(i).bits) {
        EntryBounds(i);
      }
    }
    seq(257, (i: nat) => Entry(i))
  }

  /** The bytes whose 23-bit code begins with the 19-bit code of symbol 123. */
  const MISREAD: set<byte> := {147, 149, 150, 151, 152, 155, 157, 158, 165, 166, 168, 174, 175, 180, 182, 183}

  lemma BandPrefixFree(ca: Code, cb: Code)
    requires SymbolAt(ca) != 256 && SymbolAt(cb) != 256 && PrefixOf(ca, cb)
    ensures ca == cb
  {
    InBand(ca);
    InBand(cb);
    WidthIsPower(ca.bits);
    WidthIsPower(cb.bits);
    PrefixInside(ca, cb);
    if ca.bits < cb.bits {
      BandsApart(ca.bits, cb.bits);
    } else {
      SameLengthPrefix(ca, cb);
    }
  }

  lemma SameLengthPrefix(ca: Code, cb: Code)
    requires ca.bits == cb.bits && PrefixOf(ca, cb)
    ensures ca == cb
  {
    assert cb.code / 1 == cb.code;
  }

  /** No other code is a prefix of the code of 123. */
  lemma BeforeThe123(c: Code)
    requires SymbolAt(c) != 256
    ensures !PrefixOf(c, Code(0x7fffe, 19))
  {
    assert 0x7fffe / 1 == 0x7fffe;
    if PrefixOf(c, Code(0x7fffe, 19)) {
      InBand(c);
      WidthIsPower(c.bits);
      WidthIsPower(19);
      PrefixInside(c, Code(0x7fffe, 19));
      if c.bits < 19 {
        BandsApart(c.bits, 19);
      }
    }
  }

  lemma BandsAround123(c: Code)
    requires SymbolAt(c) != 256 && c.bits >= 19
    requires 0x3FFFF000 <= c.code * Width(c.bits) < 0x3FFFF800
    ensures c.bits == 23 && 0x7fffe0 <= c.code <= 0x7fffef
  {
    InBand(c);
  }

  lemma MisreadBand(c: Code)
    requires c.bits == 23 && 0x7fffe0 <= c.code <= 0x7fffef
    ensures SymbolAt(c) in MISREAD
  {
  }

  /** The code of 123 is a prefix of the codes of the misread bytes only. */
  lemma After123(c: Code)
    requires SymbolAt(c) != 256 && PrefixOf(Code(0x7fffe, 19), c)
    ensures SymbolAt(c) in MISREAD
  {
    InBand(c);
    WidthIsPower(c.bits);
    WidthIsPower(19);
    PrefixInside(Code(0x7fffe, 19), c);
    BandsAround123(c);
    MisreadBand(c);
  }

  lemma MisreadPrefixed(b: byte)
    requires b in MISREAD
    ensures Entry(b).bits == 23 && Entry(b).code / 16 == 0x7fffe
  {
  }

  /** Two different symbols whose codes are in prefix relation: 123 and one of the sixteen, nothing else. */
  lemma PrefixPairs(a: nat, b: nat)
    requires a < 256 && b < 256 && a != b
    ensures PrefixOf(Entry(a), Entry(b)) <==> a == 123 && b in MISREAD
  {
    if a != 123 {
      Canonical(a);
    }
    if b != 123 {
      Canonical(b);
    }
    PrefixCases(a, Entry(a), b, Entry(b));
  }

  lemma PrefixCases(a: nat, ca: Code, b: nat, cb: Code)
    requires a < 256 && b < 256 && a != b && cb == Entry(b)
    requires if a == 123 then ca == Code(0x7fffe, 19) else SymbolAt(ca) == a
    requires if b == 123 then cb == Code(0x7fffe, 19) else SymbolAt(cb) == b
    ensures PrefixOf(ca, cb) <==> a == 123 && b in MISREAD
  {
    if b in MISREAD {
      MisreadPrefixed(b);
      Pow2Literals();
    }
    if PrefixOf(ca, cb) {
      if b == 123 {
        BeforeThe123(ca);
      } else if a == 123 {
        After123(cb);
      } else {
        BandPrefixFree(ca, cb);
      }
    }
  }

  lemma DistinctCodes(a: nat, b: nat)
    requires a < 256 && b < 256 && a != b
    ensures Entry(a) != Entry(b)
  {
    if a != 123 {
      Canonical(a);
    }
    if b != 123 {
      Canonical(b);
    }
  }

  lemma TablePairs(a: byte, b: byte)
    requires a != b
    ensures HpackHuffman()[a] != HpackHuffman()[b]
    ensures PrefixOf(HpackHuffman()[a], HpackHuffman()[b]) <==> a == 123 && b in MISREAD
  {
    DistinctCodes(a, b);
    PrefixPairs(a, b);
  }

  /** A byte is decodable exactly when it is not one of the sixteen. */
  lemma Decodability(ch: byte)
    ensures Decodable(HpackHuffman(), ch) <==> ch !in MISREAD
  {
    var t := HpackHuffman();
    forall a: byte | a != ch ensures t[a] != t[ch] && (PrefixOf(t[a], t[ch]) <==> a == 123 && ch in MISREAD) {
      TablePairs(a, ch);
    }
    DecodableByPairs(t, ch, 123, MISREAD);
  }

  lemma ShortBandEnds(bits: nat)
    requires Width(bits) > 0 && bits <= 7
    ensures End(bits) < Pow2(bits) * Width(bits)
  {
    Pow2Literals();
  }

  lemma NotAllOnes(c: Code)
    requires SymbolAt(c) != 256 && c.bits <= 7
    ensures c.code != Pow2(c.bits) - 1
  {
    InBand(c);
    ShortBandEnds(c.bits);
    Distribute(c.code, 1, Width(c.bits));
  }

  lemma EntryNotOnes(a: byte)
    ensures HpackHuffman()[a].bits <= 7 ==> HpackHuffman()[a].code != Pow2(HpackHuffman()[a].bits) - 1
  {
    if a != 123 && Entry(a).bits <= 7 {
      Canonical(a);
      NotAllOnes(Entry(a));
    }
  }

  lemma BandEnds(bits: nat)
    requires Width(bits) > 0
    ensures End(bits) < 0x4000_0000
  {
  }

  lemma NeverAllOnes(c: Code)
    requires SymbolAt(c) != 256
    ensures c.code != Pow2(c.bits) - 1
  {
    hide SymbolAt, End, Width, Start, Pow2;
    InBand(c);
    BandEnds(c.bits);
    WidthIsPower(c.bits);
    Pow2Add(c.bits, 30 - c.bits);
    ThirtyBits();
    Fewer(c.code, Pow2(c.bits), Width(c.bits));
  }

  lemma ThirtyBits()
    ensures Pow2(30) == 0x4000_0000
  {
    Pow2Literals();
    Pow2Add(8, 8);
    Pow2Add(16, 8);
    Pow2Add(24, 6);
  }

  lemma Fewer(code: nat, p: nat, w: nat)
    requires code * w + w < p * w
    ensures code + 1 < p
  {
    if code + 1 >= p {
      Distribute(code, 1, w);
      Distribute(p, code + 1 - p, w);
    }
  }

  /** No code of the table consists of ones, so the bit loop gives up within four FF bytes. */
  lemma OnesAreRefused()
    ensures GivesUp(HpackHuffman(), [255, 255, 255, 255])
  {
    hide GivesUp;
    var t := HpackHuffman();
    forall a: byte ensures t[a].code != Pow2(t[a].bits) - 1 {
      if a != 123 {
        Canonical(a);
        NeverAllOnes(Entry(a));
      } else {
        The123();
      }
    }
    OnesGiveUp(t);
  }

  lemma The123()
    ensures HpackHuffman()[123].code != Pow2(HpackHuffman()[123].bits) - 1
  {
    assert HpackHuffman()[123] == Code(0x7fffe, 19);
    assert Pow2(19) == 0x80000 by {
      Pow2Literals();
      Pow2Add(8, 8);
      Pow2Add(16, 3);
    }
  }

  lemma PaddingIsSafe()
    ensures PaddingSafe(HpackHuffman())
  {
    var t := HpackHuffman();
    forall a: byte ensures t[a].bits <= 7 ==> t[a].code != Pow2(t[a].bits) - 1 {
      EntryNotOnes(a);
    }
    PaddingSafeIf(t);
  }

  /** The codec is lossless on a string exactly when it holds none of the sixteen bytes. */
  lemma HpackRoundTrip(s: seq<byte>)
    ensures Decode(HpackHuffman(), Encode(HpackHuffman(), s)) == s <==> forall ch :: ch in s ==> ch !in MISREAD
  {
    PaddingIsSafe();
    RoundTrip(HpackHuffman(), s);
    forall ch | ch in s ensures Decodable(HpackHuffman(), ch) <==> ch !in MISREAD {
      Decodability(ch);
    }
  }

}
