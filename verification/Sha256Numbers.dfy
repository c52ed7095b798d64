/** The numbers of SHA-256 are what FIPS 180-4 says they are: its round constants and its initial hash
    are digits of roots of the first primes. */
module Sha256Numbers {
  import opened Sha256Spec

  // ---------------------------------------------------------------------------------------
  // The first sixty-four primes
  // ---------------------------------------------------------------------------------------

  ghost predicate IsPrime(n: nat) {
    2 <= n && forall d | 2 <= d < n :: n % d != 0
  }

  /** The first sixty-four, eight to a row. */
  function PrimeRow(r: nat): (row: seq<nat>)
    requires r < 8
    ensures |row| == 8
  {
    match r
    case 0 => [2, 3, 5, 7, 11, 13, 17, 19]
    case 1 => [23, 29, 31, 37, 41, 43, 47, 53]
    case 2 => [59, 61, 67, 71, 73, 79, 83, 89]
    case 3 => [97, 101, 103, 107, 109, 113, 127, 131]
    case 4 => [137, 139, 149, 151, 157, 163, 167, 173]
    case 5 => [179, 181, 191, 193, 197, 199, 211, 223]
    case 6 => [227, 229, 233, 239, 241, 251, 257, 263]
    case _ => [269, 271, 277, 281, 283, 293, 307, 311]
  }

  const PRIMES: seq<nat> :=
    PrimeRow(0) + PrimeRow(1) + PrimeRow(2) + PrimeRow(3) + PrimeRow(4) + PrimeRow(5) + PrimeRow(6) + PrimeRow(7)

  /** Not divisible by a prime whose square is below 324, unless it is that prime. */
  predicate Sieved(n: nat) {
    && 2 <= n
    && (n % 2 != 0 || n == 2) && (n % 3 != 0 || n == 3) && (n % 5 != 0 || n == 5) && (n % 7 != 0 || n == 7)
    && (n % 11 != 0 || n == 11) && (n % 13 != 0 || n == 13) && (n % 17 != 0 || n == 17)
  }

  lemma ProductAtLeast(a: nat, b: nat, c: nat)
    requires c <= a && c <= b
    ensures c * c <= a * b
  {
    assert c * c <= c * b && c * b <= a * b by {
      ProductGrows(c, c, b);
      ProductGrows(b, c, a);
    }
  }

  lemma ProductGrows(k: nat, a: nat, b: nat)
    requires a <= b
    ensures k * a <= k * b
  {
  }

  lemma FactorDivides(q: nat, d: nat)
    requires 1 <= q
    ensures (q * d) % q == 0
  {
    var m, r := q * d / q, (q * d) % q;
    assert q * (d - m) == r;
    if d - m >= 1 {
      ProductGrows(q, 1, d - m);
    } else if d - m <= -1 {
      ProductGrows(q, 1, m - d);
    }
  }

  /** A number below 324 that has a divisor has one that is 17 at most. */
  lemma SmallDivisor(n: nat, d: nat) returns (e: nat)
    requires n < 324 && 2 <= d < n && n % d == 0
    ensures 2 <= e <= 17 && e < n && n % e == 0
  {
    if d <= 17 {
      e := d;
    } else {
      var q := n / d;
      assert n == q * d;
      if q <= 1 {
        ProductGrows(d, q, 1);
      } else {
        FactorDivides(q, d);
        ProductGrows(q, 2, d);
      }
      if 18 <= q {
        ProductAtLeast(q, d, 18);
      }
      e := q;
    }
  }

  lemma DivisorIsSieved(n: nat, e: nat)
    requires 2 <= e <= 17 && e < n && n % e == 0
    ensures !Sieved(n)
  {
    var p := if e % 2 == 0 then 2 else if e % 3 == 0 then 3 else if e % 5 == 0 then 5 else e;
    DividesThrough(n, e, p);
    hide Sieved;
    PrimeDivisorIsSieved(n, p);
  }

  lemma PrimeDivisorIsSieved(n: nat, p: nat)
    requires p == 2 || p == 3 || p == 5 || p == 7 || p == 11 || p == 13 || p == 17
    requires p < n && n % p == 0
    ensures !Sieved(n)
  {
  }

  lemma DividesThrough(n: nat, e: nat, d: nat)
    requires 1 <= d && 1 <= e && n % e == 0 && e % d == 0
    ensures n % d == 0
  {
    var q, r := n / e, e / d;
    assert n == q * (r * d) == (q * r) * d;
    FactorDivides(d, q * r);
  }

  lemma SieveFindsPrimes(n: nat)
    requires n < 324
    ensures IsPrime(n) <==> Sieved(n)
  {
    if 2 <= n && !IsPrime(n) {
      var d :| 2 <= d < n && n % d == 0;
      var e := SmallDivisor(n, d);
      DivisorIsSieved(n, e);
    }
  }

  lemma SieveTo7(n: nat)
    ensures 0 <= n <= 7 ==> (Sieved(n) <==> n == 2 || n == 3 || n == 5 || n == 7)
  {
    if 0 <= n <= 7 {
      assert n == 0 || n == 1 || n == 2 || n == 3 || n == 4 || n == 5 || n == 6 || n == 7;
    }
  }

  lemma SieveTo19(n: nat)
    ensures 8 <= n <= 19 ==> (Sieved(n) <==> n == 11 || n == 13 || n == 17 || n == 19)
  {
    if 8 <= n <= 19 {
      assert n == 8 || n == 9 || n == 10 || n == 11 || n == 12 || n == 13 || n == 14 || n == 15 || n == 16 ||
             n == 17 || n == 18 || n == 19;
    }
  }

  lemma SieveRow0(n: nat)
    ensures 0 <= n <= 19 ==> (Sieved(n) <==> n in PrimeRow(0))
    ensures n in PrimeRow(0) ==> 0 <= n <= 19
  {
    hide Sieved;
    SieveTo7(n);
    SieveTo19(n);
  }

  lemma SieveTo37(n: nat)
    ensures 20 <= n <= 37 ==> (Sieved(n) <==> n == 23 || n == 29 || n == 31 || n == 37)
  {
    if 20 <= n <= 37 {
      assert n == 20 || n == 21 || n == 22 || n == 23 || n == 24 || n == 25 || n == 26 || n == 27 || n == 28 ||
             n == 29 || n == 30 || n == 31 || n == 32 || n == 33 || n == 34 || n == 35 || n == 36 || n == 37;
    }
  }

  lemma SieveTo53(n: nat)
    ensures 38 <= n <= 53 ==> (Sieved(n) <==> n == 41 || n == 43 || n == 47 || n == 53)
  {
    if 38 <= n <= 53 {
      assert n == 38 || n == 39 || n == 40 || n == 41 || n == 42 || n == 43 || n == 44 || n == 45 || n == 46 ||
             n == 47 || n == 48 || n == 49 || n == 50 || n == 51 || n == 52 || n == 53;
    }
  }

  lemma SieveRow1(n: nat)
    ensures 20 <= n <= 53 ==> (Sieved(n) <==> n in PrimeRow(1))
    ensures n in PrimeRow(1) ==> 20 <= n <= 53
  {
    hide Sieved;
    SieveTo37(n);
    SieveTo53(n);
  }

  lemma SieveTo71(n: nat)
    ensures 54 <= n <= 71 ==> (Sieved(n) <==> n == 59 || n == 61 || n == 67 || n == 71)
  {
    if 54 <= n <= 71 {
      assert n == 54 || n == 55 || n == 56 || n == 57 || n == 58 || n == 59 || n == 60 || n == 61 || n == 62 ||
             n == 63 || n == 64 || n == 65 || n == 66 || n == 67 || n == 68 || n == 69 || n == 70 || n == 71;
    }
  }

  lemma SieveTo89(n: nat)
    ensures 72 <= n <= 89 ==> (Sieved(n) <==> n == 73 || n == 79 || n == 83 || n == 89)
  {
    if 72 <= n <= 89 {
      assert n == 72 || n == 73 || n == 74 || n == 75 || n == 76 || n == 77 || n == 78 || n == 79 || n == 80 ||
             n == 81 || n == 82 || n == 83 || n == 84 || n == 85 || n == 86 || n == 87 || n == 88 || n == 89;
    }
  }

  lemma SieveRow2(n: nat)
    ensures 54 <= n <= 89 ==> (Sieved(n) <==> n in PrimeRow(2))
    ensures n in PrimeRow(2) ==> 54 <= n <= 89
  {
    hide Sieved;
    SieveTo71(n);
    SieveTo89(n);
  }

  lemma SieveTo101(n: nat)
    ensures 90 <= n <= 101 ==> (Sieved(n) <==> n == 97 || n == 101)
  {
    if 90 <= n <= 101 {
      assert n == 90 || n == 91 || n == 92 || n == 93 || n == 94 || n == 95 || n == 96 || n == 97 || n == 98 ||
             n == 99 || n == 100 || n == 101;
    }
  }

  lemma SieveTo107(n: nat)
    ensures 102 <= n <= 107 ==> (Sieved(n) <==> n == 103 || n == 107)
  {
    if 102 <= n <= 107 {
      assert n == 102 || n == 103 || n == 104 || n == 105 || n == 106 || n == 107;
    }
  }

  lemma SieveTo113(n: nat)
    ensures 108 <= n <= 113 ==> (Sieved(n) <==> n == 109 || n == 113)
  {
    if 108 <= n <= 113 {
      assert n == 108 || n == 109 || n == 110 || n == 111 || n == 112 || n == 113;
    }
  }

  lemma SieveTo131(n: nat)
    ensures 114 <= n <= 131 ==> (Sieved(n) <==> n == 127 || n == 131)
  {
    if 114 <= n <= 131 {
      assert n == 114 || n == 115 || n == 116 || n == 117 || n == 118 || n == 119 || n == 120 || n == 121 ||
             n == 122 || n == 123 || n == 124 || n == 125 || n == 126 || n == 127 || n == 128 || n == 129 ||
             n == 130 || n == 131;
    }
  }

  lemma SieveRow3(n: nat)
    ensures 90 <= n <= 131 ==> (Sieved(n) <==> n in PrimeRow(3))
    ensures n in PrimeRow(3) ==> 90 <= n <= 131
  {
    hide Sieved;
    SieveTo101(n);
    SieveTo107(n);
    SieveTo113(n);
    SieveTo131(n);
  }

  lemma SieveTo139(n: nat)
    ensures 132 <= n <= 139 ==> (Sieved(n) <==> n == 137 || n == 139)
  {
    if 132 <= n <= 139 {
      assert n == 132 || n == 133 || n == 134 || n == 135 || n == 136 || n == 137 || n == 138 || n == 139;
    }
  }

  lemma SieveTo151(n: nat)
    ensures 140 <= n <= 151 ==> (Sieved(n) <==> n == 149 || n == 151)
  {
    if 140 <= n <= 151 {
      assert n == 140 || n == 141 || n == 142 || n == 143 || n == 144 || n == 145 || n == 146 || n == 147 ||
             n == 148 || n == 149 || n == 150 || n == 151;
    }
  }

  lemma SieveTo163(n: nat)
    ensures 152 <= n <= 163 ==> (Sieved(n) <==> n == 157 || n == 163)
  {
    if 152 <= n <= 163 {
      assert n == 152 || n == 153 || n == 154 || n == 155 || n == 156 || n == 157 || n == 158 || n == 159 ||
             n == 160 || n == 161 || n == 162 || n == 163;
    }
  }

  lemma SieveTo173(n: nat)
    ensures 164 <= n <= 173 ==> (Sieved(n) <==> n == 167 || n == 173)
  {
    if 164 <= n <= 173 {
      assert n == 164 || n == 165 || n == 166 || n == 167 || n == 168 || n == 169 || n == 170 || n == 171 ||
             n == 172 || n == 173;
    }
  }

  lemma SieveRow4(n: nat)
    ensures 132 <= n <= 173 ==> (Sieved(n) <==> n in PrimeRow(4))
    ensures n in PrimeRow(4) ==> 132 <= n <= 173
  {
    hide Sieved;
    SieveTo139(n);
    SieveTo151(n);
    SieveTo163(n);
    SieveTo173(n);
  }

  lemma SieveTo181(n: nat)
    ensures 174 <= n <= 181 ==> (Sieved(n) <==> n == 179 || n == 181)
  {
    if 174 <= n <= 181 {
      assert n == 174 || n == 175 || n == 176 || n == 177 || n == 178 || n == 179 || n == 180 || n == 181;
    }
  }

  lemma SieveTo193(n: nat)
    ensures 182 <= n <= 193 ==> (Sieved(n) <==> n == 191 || n == 193)
  {
    if 182 <= n <= 193 {
      assert n == 182 || n == 183 || n == 184 || n == 185 || n == 186 || n == 187 || n == 188 || n == 189 ||
             n == 190 || n == 191 || n == 192 || n == 193;
    }
  }

  lemma SieveTo199(n: nat)
    ensures 194 <= n <= 199 ==> (Sieved(n) <==> n == 197 || n == 199)
  {
    if 194 <= n <= 199 {
      assert n == 194 || n == 195 || n == 196 || n == 197 || n == 198 || n == 199;
    }
  }

  lemma SieveTo223(n: nat)
    ensures 200 <= n <= 223 ==> (Sieved(n) <==> n == 211 || n == 223)
  {
    if 200 <= n <= 223 {
      assert n == 200 || n == 201 || n == 202 || n == 203 || n == 204 || n == 205 || n == 206 || n == 207 ||
             n == 208 || n == 209 || n == 210 || n == 211 || n == 212 || n == 213 || n == 214 || n == 215 ||
             n == 216 || n == 217 || n == 218 || n == 219 || n == 220 || n == 221 || n == 222 || n == 223;
    }
  }

  lemma SieveRow5(n: nat)
    ensures 174 <= n <= 223 ==> (Sieved(n) <==> n in PrimeRow(5))
    ensures n in PrimeRow(5) ==> 174 <= n <= 223
  {
    hide Sieved;
    SieveTo181(n);
    SieveTo193(n);
    SieveTo199(n);
    SieveTo223(n);
  }

  lemma SieveTo229(n: nat)
    ensures 224 <= n <= 229 ==> (Sieved(n) <==> n == 227 || n == 229)
  {
    if 224 <= n <= 229 {
      assert n == 224 || n == 225 || n == 226 || n == 227 || n == 228 || n == 229;
    }
  }

  lemma SieveTo239(n: nat)
    ensures 230 <= n <= 239 ==> (Sieved(n) <==> n == 233 || n == 239)
  {
    if 230 <= n <= 239 {
      assert n == 230 || n == 231 || n == 232 || n == 233 || n == 234 || n == 235 || n == 236 || n == 237 ||
             n == 238 || n == 239;
    }
  }

  lemma SieveTo251(n: nat)
    ensures 240 <= n <= 251 ==> (Sieved(n) <==> n == 241 || n == 251)
  {
    if 240 <= n <= 251 {
      assert n == 240 || n == 241 || n == 242 || n == 243 || n == 244 || n == 245 || n == 246 || n == 247 ||
             n == 248 || n == 249 || n == 250 || n == 251;
    }
  }

  lemma SieveTo263(n: nat)
    ensures 252 <= n <= 263 ==> (Sieved(n) <==> n == 257 || n == 263)
  {
    if 252 <= n <= 263 {
      assert n == 252 || n == 253 || n == 254 || n == 255 || n == 256 || n == 257 || n == 258 || n == 259 ||
             n == 260 || n == 261 || n == 262 || n == 263;
    }
  }

  lemma SieveRow6(n: nat)
    ensures 224 <= n <= 263 ==> (Sieved(n) <==> n in PrimeRow(6))
    ensures n in PrimeRow(6) ==> 224 <= n <= 263
  {
    hide Sieved;
    SieveTo229(n);
    SieveTo239(n);
    SieveTo251(n);
    SieveTo263(n);
  }

  lemma SieveTo271(n: nat)
    ensures 264 <= n <= 271 ==> (Sieved(n) <==> n == 269 || n == 271)
  {
    if 264 <= n <= 271 {
      assert n == 264 || n == 265 || n == 266 || n == 267 || n == 268 || n == 269 || n == 270 || n == 271;
    }
  }

  lemma SieveTo281(n: nat)
    ensures 272 <= n <= 281 ==> (Sieved(n) <==> n == 277 || n == 281)
  {
    if 272 <= n <= 281 {
      assert n == 272 || n == 273 || n == 274 || n == 275 || n == 276 || n == 277 || n == 278 || n == 279 ||
             n == 280 || n == 281;
    }
  }

  lemma SieveTo293(n: nat)
    ensures 282 <= n <= 293 ==> (Sieved(n) <==> n == 283 || n == 293)
  {
    if 282 <= n <= 293 {
      assert n == 282 || n == 283 || n == 284 || n == 285 || n == 286 || n == 287 || n == 288 || n == 289 ||
             n == 290 || n == 291 || n == 292 || n == 293;
    }
  }

  lemma SieveTo311(n: nat)
    ensures 294 <= n <= 311 ==> (Sieved(n) <==> n == 307 || n == 311)
  {
    if 294 <= n <= 311 {
      assert n == 294 || n == 295 || n == 296 || n == 297 || n == 298 || n == 299 || n == 300 || n == 301 ||
             n == 302 || n == 303 || n == 304 || n == 305 || n == 306 || n == 307 || n == 308 || n == 309 ||
             n == 310 || n == 311;
    }
  }

  lemma SieveRow7(n: nat)
    ensures 264 <= n <= 311 ==> (Sieved(n) <==> n in PrimeRow(7))
    ensures n in PrimeRow(7) ==> 264 <= n <= 311
  {
    hide Sieved;
    SieveTo271(n);
    SieveTo281(n);
    SieveTo293(n);
    SieveTo311(n);
  }

  lemma InSomeRow(n: nat)
    ensures n in PRIMES <==> exists r: nat | r < 8 :: n in PrimeRow(r)
  {
    hide PrimeRow;
    assert n in PRIMES <==> (n in PrimeRow(0) || n in PrimeRow(1) || n in PrimeRow(2) || n in PrimeRow(3)
                             || n in PrimeRow(4) || n in PrimeRow(5) || n in PrimeRow(6) || n in PrimeRow(7));
  }

  lemma SieveKeepsTheRows(n: nat)
    requires n <= 311
    ensures Sieved(n) <==> n in PRIMES
  {
    InSomeRow(n);
    hide PrimeRow, Sieved;
    SieveRow0(n);
    SieveRow1(n);
    SieveRow2(n);
    SieveRow3(n);
    SieveRow4(n);
    SieveRow5(n);
    SieveRow6(n);
    SieveRow7(n);
  }

  lemma PrimeAt(i: nat)
    requires i < 64
    ensures PRIMES[i] == PrimeRow(i / 8)[i % 8]
  {
    hide PrimeRow;
  }

  lemma RowAscends(r: nat, c: nat)
    requires r < 8
    ensures c < 7 ==> PrimeRow(r)[c] < PrimeRow(r)[c + 1]
    ensures r < 7 ==> PrimeRow(r)[7] < PrimeRow(r + 1)[0]
  {
  }

  lemma NextPrimeIsLarger(i: nat)
    requires i < 63
    ensures PRIMES[i] < PRIMES[i + 1]
  {
    hide PrimeRow;
    PrimeAt(i);
    PrimeAt(i + 1);
    RowAscends(i / 8, i % 8);
  }

  lemma {:induction false} PrimesAscend(i: nat, j: nat)
    requires i < j < 64
    ensures PRIMES[i] < PRIMES[j]
    decreases j
  {
    NextPrimeIsLarger(j - 1);
    if i < j - 1 {
      PrimesAscend(i, j - 1);
    }
  }

  /** They are the first sixty-four primes: ascending, and the primes up to 311 are these. */
  lemma PrimesAreTheFirst()
    ensures |PRIMES| == 64 && PRIMES[63] == 311
    ensures forall i, j | 0 <= i < j < 64 :: PRIMES[i] < PRIMES[j]
    ensures forall n: nat | n <= 311 :: n in PRIMES <==> IsPrime(n)
  {
    PrimeAt(63);
    hide IsPrime, Sieved;
    forall i, j | 0 <= i < j < 64 ensures PRIMES[i] < PRIMES[j] {
      PrimesAscend(i, j);
    }
    forall n: nat | n <= 311 ensures n in PRIMES <==> IsPrime(n) {
      SieveKeepsTheRows(n);
      SieveFindsPrimes(n);
    }
  }

  // ---------------------------------------------------------------------------------------
  // The constants
  // ---------------------------------------------------------------------------------------

  /** `q` and the 32 bits of `k` after it are the cube root of `p`, cut off there. */
  predicate IsCubeRoot(p: nat, q: nat, k: nat) {
    var r := q * 0x1_0000_0000 + k;
    r * r * r <= p * 0x1_0000_0000_0000_0000_0000_0000 < (r + 1) * (r + 1) * (r + 1)
  }

  /** The same of the square root. */
  predicate IsSquareRoot(p: nat, q: nat, k: nat) {
    var r := q * 0x1_0000_0000 + k;
    r * r <= p * 0x1_0000_0000_0000_0000 < (r + 1) * (r + 1)
  }

  /** Section 4.2.2: the first 32 bits of the fractional part of the cube root of `p`. */
  ghost predicate CubeRootFraction(p: nat, k: nat) {
    exists q: nat :: IsCubeRoot(p, q, k)
  }

  /** Section 5.3.3: the same of the square root. */
  ghost predicate SquareRootFraction(p: nat, k: nat) {
    exists q: nat :: IsSquareRoot(p, q, k)
  }

  lemma CubeRootAt(i: nat, p: nat, q: nat, k: Word)
    requires i < 64 && PrimeRow(i / 8)[i % 8] == p && K[i] == k && IsCubeRoot(p, q, k as nat)
    ensures CubeRootFraction(PRIMES[i], K[i] as nat)
  {
    PrimeAt(i);
    hide PrimeRow, IsCubeRoot;
  }

  lemma CubeRoots0(i: nat)
    requires 0 <= i < 4
    ensures CubeRootFraction(PRIMES[i], K[i] as nat)
  {
    match i
    case 0 => CubeRootAt(0, 2, 1, 0x428a2f98);
    case 1 => CubeRootAt(1, 3, 1, 0x71374491);
    case 2 => CubeRootAt(2, 5, 1, 0xb5c0fbcf);
    case _ => CubeRootAt(3, 7, 1, 0xe9b5dba5);
  }

  lemma CubeRoots1(i: nat)
    requires 4 <= i < 8
    ensures CubeRootFraction(PRIMES[i], K[i] as nat)
  {
    match i
    case 4 => CubeRootAt(4, 11, 2, 0x3956c25b);
    case 5 => CubeRootAt(5, 13, 2, 0x59f111f1);
    case 6 => CubeRootAt(6, 17, 2, 0x923f82a4);
    case _ => CubeRootAt(7, 19, 2, 0xab1c5ed5);
  }

  lemma CubeRoots2(i: nat)
    requires 8 <= i < 12
    ensures CubeRootFraction(PRIMES[i], K[i] as nat)
  {
    match i
    case 8 => CubeRootAt(8, 23, 2, 0xd807aa98);
    case 9 => CubeRootAt(9, 29, 3, 0x12835b01);
    case 10 => CubeRootAt(10, 31, 3, 0x243185be);
    case _ => CubeRootAt(11, 37, 3, 0x550c7dc3);
  }

  lemma CubeRoots3(i: nat)
    requires 12 <= i < 16
    ensures CubeRootFraction(PRIMES[i], K[i] as nat)
  {
    match i
    case 12 => CubeRootAt(12, 41, 3, 0x72be5d74);
    case 13 => CubeRootAt(13, 43, 3, 0x80deb1fe);
    case 14 => CubeRootAt(14, 47, 3, 0x9bdc06a7);
    case _ => CubeRootAt(15, 53, 3, 0xc19bf174);
  }

  lemma CubeRoots4(i: nat)
    requires 16 <= i < 20
    ensures CubeRootFraction(PRIMES[i], K[i] as nat)
  {
    match i
    case 16 => CubeRootAt(16, 59, 3, 0xe49b69c1);
    case 17 => CubeRootAt(17, 61, 3, 0xefbe4786);
    case 18 => CubeRootAt(18, 67, 4, 0x0fc19dc6);
    case _ => CubeRootAt(19, 71, 4, 0x240ca1cc);
  }

  lemma CubeRoots5(i: nat)
    requires 20 <= i < 24
    ensures CubeRootFraction(PRIMES[i], K[i] as nat)
  {
    match i
    case 20 => CubeRootAt(20, 73, 4, 0x2de92c6f);
    case 21 => CubeRootAt(21, 79, 4, 0x4a7484aa);
    case 22 => CubeRootAt(22, 83, 4, 0x5cb0a9dc);
    case _ => CubeRootAt(23, 89, 4, 0x76f988da);
  }

  lemma CubeRoots6(i: nat)
    requires 24 <= i < 28
    ensures CubeRootFraction(PRIMES[i], K[i] as nat)
  {
    match i
    case 24 => CubeRootAt(24, 97, 4, 0x983e5152);
    case 25 => CubeRootAt(25, 101, 4, 0xa831c66d);
    case 26 => CubeRootAt(26, 103, 4, 0xb00327c8);
    case _ => CubeRootAt(27, 107, 4, 0xbf597fc7);
  }

  lemma CubeRoots7(i: nat)
    requires 28 <= i < 32
    ensures CubeRootFraction(PRIMES[i], K[i] as nat)
  {
    match i
    case 28 => CubeRootAt(28, 109, 4, 0xc6e00bf3);
    case 29 => CubeRootAt(29, 113, 4, 0xd5a79147);
    case 30 => CubeRootAt(30, 127, 5, 0x06ca6351);
    case _ => CubeRootAt(31, 131, 5, 0x14292967);
  }

  lemma CubeRoots8(i: nat)
    requires 32 <= i < 36
    ensures CubeRootFraction(PRIMES[i], K[i] as nat)
  {
    match i
    case 32 => CubeRootAt(32, 137, 5, 0x27b70a85);
    case 33 => CubeRootAt(33, 139, 5, 0x2e1b2138);
    case 34 => CubeRootAt(34, 149, 5, 0x4d2c6dfc);
    case _ => CubeRootAt(35, 151, 5, 0x53380d13);
  }

  lemma CubeRoots9(i: nat)
    requires 36 <= i < 40
    ensures CubeRootFraction(PRIMES[i], K[i] as nat)
  {
    match i
    case 36 => CubeRootAt(36, 157, 5, 0x650a7354);
    case 37 => CubeRootAt(37, 163, 5, 0x766a0abb);
    case 38 => CubeRootAt(38, 167, 5, 0x81c2c92e);
    case _ => CubeRootAt(39, 173, 5, 0x92722c85);
  }

  lemma CubeRoots10(i: nat)
    requires 40 <= i < 44
    ensures CubeRootFraction(PRIMES[i], K[i] as nat)
  {
    match i
    case 40 => CubeRootAt(40, 179, 5, 0xa2bfe8a1);
    case 41 => CubeRootAt(41, 181, 5, 0xa81a664b);
    case 42 => CubeRootAt(42, 191, 5, 0xc24b8b70);
    case _ => CubeRootAt(43, 193, 5, 0xc76c51a3);
  }

  lemma CubeRoots11(i: nat)
    requires 44 <= i < 48
    ensures CubeRootFraction(PRIMES[i], K[i] as nat)
  {
    match i
    case 44 => CubeRootAt(44, 197, 5, 0xd192e819);
    case 45 => CubeRootAt(45, 199, 5, 0xd6990624);
    case 46 => CubeRootAt(46, 211, 5, 0xf40e3585);
    case _ => CubeRootAt(47, 223, 6, 0x106aa070);
  }

  lemma CubeRoots12(i: nat)
    requires 48 <= i < 52
    ensures CubeRootFraction(PRIMES[i], K[i] as nat)
  {
    match i
    case 48 => CubeRootAt(48, 227, 6, 0x19a4c116);
    case 49 => CubeRootAt(49, 229, 6, 0x1e376c08);
    case 50 => CubeRootAt(50, 233, 6, 0x2748774c);
    case _ => CubeRootAt(51, 239, 6, 0x34b0bcb5);
  }

  lemma CubeRoots13(i: nat)
    requires 52 <= i < 56
    ensures CubeRootFraction(PRIMES[i], K[i] as nat)
  {
    match i
    case 52 => CubeRootAt(52, 241, 6, 0x391c0cb3);
    case 53 => CubeRootAt(53, 251, 6, 0x4ed8aa4a);
    case 54 => CubeRootAt(54, 257, 6, 0x5b9cca4f);
    case _ => CubeRootAt(55, 263, 6, 0x682e6ff3);
  }

  lemma CubeRoots14(i: nat)
    requires 56 <= i < 60
    ensures CubeRootFraction(PRIMES[i], K[i] as nat)
  {
    match i
    case 56 => CubeRootAt(56, 269, 6, 0x748f82ee);
    case 57 => CubeRootAt(57, 271, 6, 0x78a5636f);
    case 58 => CubeRootAt(58, 277, 6, 0x84c87814);
    case _ => CubeRootAt(59, 281, 6, 0x8cc70208);
  }

  lemma CubeRoots15(i: nat)
    requires 60 <= i < 64
    ensures CubeRootFraction(PRIMES[i], K[i] as nat)
  {
    match i
    case 60 => CubeRootAt(60, 283, 6, 0x90befffa);
    case 61 => CubeRootAt(61, 293, 6, 0xa4506ceb);
    case 62 => CubeRootAt(62, 307, 6, 0xbef9a3f7);
    case _ => CubeRootAt(63, 311, 6, 0xc67178f2);
  }

  lemma SquareRootAt(i: nat)
    requires i < 8
    ensures SquareRootFraction(PRIMES[i], H0[i] as nat)
  {
    PrimeAt(i);
    assert IsSquareRoot(2, 1, 0x6a09e667) && H0[0] as nat == 0x6a09e667;
    assert IsSquareRoot(3, 1, 0xbb67ae85) && H0[1] as nat == 0xbb67ae85;
    assert IsSquareRoot(5, 2, 0x3c6ef372) && H0[2] as nat == 0x3c6ef372;
    assert IsSquareRoot(7, 2, 0xa54ff53a) && H0[3] as nat == 0xa54ff53a;
    assert IsSquareRoot(11, 3, 0x510e527f) && H0[4] as nat == 0x510e527f;
    assert IsSquareRoot(13, 3, 0x9b05688c) && H0[5] as nat == 0x9b05688c;
    assert IsSquareRoot(17, 4, 0x1f83d9ab) && H0[6] as nat == 0x1f83d9ab;
    assert IsSquareRoot(19, 4, 0x5be0cd19) && H0[7] as nat == 0x5be0cd19;
    hide IsSquareRoot;
  }

  /** The round constants and the initial hash are those of the standard. */
  lemma NumbersAreTheStandards()
    ensures |K| == 64 && forall i | 0 <= i < 64 :: CubeRootFraction(PRIMES[i], K[i] as nat)
    ensures forall i | 0 <= i < 8 :: SquareRootFraction(PRIMES[i], H0[i] as nat)
  {
    hide CubeRootFraction, SquareRootFraction, PrimeRow;
    forall i | 0 <= i < 64 ensures CubeRootFraction(PRIMES[i], K[i] as nat) {
      if i < 4 {
        CubeRoots0(i);
      } else if i < 8 {
        CubeRoots1(i);
      } else if i < 12 {
        CubeRoots2(i);
      } else if i < 16 {
        CubeRoots3(i);
      } else if i < 20 {
        CubeRoots4(i);
      } else if i < 24 {
        CubeRoots5(i);
      } else if i < 28 {
        CubeRoots6(i);
      } else if i < 32 {
        CubeRoots7(i);
      } else if i < 36 {
        CubeRoots8(i);
      } else if i < 40 {
        CubeRoots9(i);
      } else if i < 44 {
        CubeRoots10(i);
      } else if i < 48 {
        CubeRoots11(i);
      } else if i < 52 {
        CubeRoots12(i);
      } else if i < 56 {
        CubeRoots13(i);
      } else if i < 60 {
        CubeRoots14(i);
      } else {
        CubeRoots15(i);
      }
    }
    forall i | 0 <= i < 8 ensures SquareRootFraction(PRIMES[i], H0[i] as nat) {
      SquareRootAt(i);
    }
  }

  lemma CubesGrow(a: nat, b: nat)
    requires a < b
    ensures (a + 1) * (a + 1) * (a + 1) <= b * b * b
  {
    var c := a + 1;
    ProductAtLeast(b, b, c);
    ProductGrows(c, c * c, b * b);
    ProductGrows(b * b, c, b);
    assert c * (c * c) == c * c * c && c * (b * b) == b * b * c;
  }

  lemma RootIsUnique(p: nat, r: nat, t: nat)
    requires r * r * r <= p * 0x1_0000_0000_0000_0000_0000_0000 < (r + 1) * (r + 1) * (r + 1)
    requires t * t * t <= p * 0x1_0000_0000_0000_0000_0000_0000 < (t + 1) * (t + 1) * (t + 1)
    ensures r == t
  {
    if r < t {
      CubesGrow(r, t);
    } else if t < r {
      CubesGrow(t, r);
    }
  }

  lemma RootsAgree(p: nat, q: nat, k: nat, u: nat, l: nat)
    requires IsCubeRoot(p, q, k) && IsCubeRoot(p, u, l)
    ensures q * 0x1_0000_0000 + k == u * 0x1_0000_0000 + l
  {
    RootIsUnique(p, q * 0x1_0000_0000 + k, u * 0x1_0000_0000 + l);
  }

  /** And there are no others: a number has one such fraction. */
  lemma FractionIsUnique(p: nat, k: nat, l: nat)
    requires CubeRootFraction(p, k) && CubeRootFraction(p, l) && k < 0x1_0000_0000 && l < 0x1_0000_0000
    ensures k == l
  {
    hide IsCubeRoot;
    var q: nat :| IsCubeRoot(p, q, k);
    var u: nat :| IsCubeRoot(p, u, l);
    RootsAgree(p, q, k, u, l);
  }
}
